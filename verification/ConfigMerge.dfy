/**
 `keep_router_accounts` of src/config_admin.rs: a host's replacement document
 keeps every account the router has, as the router last wrote it.
 */
module ConfigMerge {
  import opened Common

  datatype Json =
    | Null
    | Bool(b: bool)
    | Num(n: real)
    | Str(s: string)
    | Arr(items: seq<Json>)
    | Obj(fields: map<string, Json>)

  /** Agent fields the router owns on an account entry. */
  const ACCOUNT_FIELDS: seq<string> :=
    ["command", "accounts", "account_disabled", "account_priority", "account_plan",
     "reserve_capacity", "login_command", "auth_probe", "usage_source", "lineage"]

  // ---- Reading entries ----

  function Get(v: Json, key: string): Option<Json> {
    if v.Obj? then MapGet(v.fields, key) else None
  }

  function AsStr(v: Option<Json>): Option<string> {
    if v.Some? && v.value.Str? then Some(v.value.s) else None
  }

  function Pointer(v: Json, key: string, inner: string): Option<string> {
    var o := Get(v, key);
    if o.Some? then AsStr(Get(o.value, inner)) else None
  }

  function NameOf(v: Json): Option<string> {
    AsStr(Get(v, "name"))
  }

  function LastSegment(path: string): string {
    if path == [] || path[|path| - 1] == '/' then [] else LastSegment(path[..|path| - 1]) + [path[|path| - 1]]
  }

  /** The last component of a path; `.` components and trailing slashes do not count. */
  function FileName(path: string): Option<string>
    decreases |path|
  {
    if path == [] then None
    else if path[|path| - 1] == '/' || LastSegment(path) == "." then FileName(path[..|path| - 1])
    else if LastSegment(path) == ".." then None
    else Some(LastSegment(path))
  }

  function CommandProvider(command: Option<string>): Option<string> {
    if command.None? then None else
    match FileName(command.value)
    case None => None
    case Some(file) =>
      if file == "claude-agent-acp" || file == "claude-acp" then Some("claude")
      else if file == "codex-acp" then Some("codex")
      else if file == "grok" || file == "kimi" then Some(file)
      else None
  }

  /** The provider an entry signs in to, if any. */
  function EntryProvider(v: Json): Option<string> {
    var source := Pointer(v, "usage_source", "type");
    if source == Some("anthropic-oauth") then Some("claude")
    else if source == Some("codex-rollout") then Some("codex")
    else
      var name := NameOf(v);
      if name.None? then None else
      var base := BaseName(name.value);
      if base in ["claude", "codex", "grok", "kimi"] then Some(base)
      else CommandProvider(Pointer(v, "command", "command"))
  }

  function AgentsOf(doc: Json): Option<seq<Json>> {
    var agents := Get(doc, "agents");
    if agents.Some? && agents.value.Arr? then Some(agents.value.items) else None
  }

  function FindNamed(entries: seq<Json>, name: string): (e: Option<Json>)
    ensures e.Some? ==> e.value in entries && NameOf(e.value) == Some(name) && e.value.Obj?
  {
    if entries == [] then None
    else if NameOf(entries[0]) == Some(name) then Some(entries[0])
    else FindNamed(entries[1..], name)
  }

  // ---- What the readers find ----

  predicate IsProvider(p: string) {
    p == "claude" || p == "codex" || p == "grok" || p == "kimi"
  }

  /** An entry whose usage is polled says which provider it is; any other named
      after a provider, with an account or without, is that provider's. */
  lemma ProviderByName(v: Json, p: string, account: string)
    ensures Pointer(v, "usage_source", "type") == Some("anthropic-oauth") ==> EntryProvider(v) == Some("claude")
    ensures Pointer(v, "usage_source", "type") == Some("codex-rollout") ==> EntryProvider(v) == Some("codex")
    ensures Pointer(v, "usage_source", "type").None? && IsProvider(p) ==>
              (NameOf(v) == Some(p) || NameOf(v) == Some(p + "@" + account) ==> EntryProvider(v) == Some(p))
    ensures Pointer(v, "usage_source", "type").None? && NameOf(v).None? ==> EntryProvider(v).None?
  {
    if IsProvider(p) {
      BaseNameOfSeat(p, account);
    }
  }

  predicate IsFile(file: string) {
    file != [] && '/' !in file && file != "." && file != ".."
  }

  lemma SegmentGrows(path: string, c: char)
    ensures LastSegment(path + [c]) == if c == '/' then [] else LastSegment(path) + [c]
  {
    assert (path + [c])[..|path|] == path;
  }

  lemma Snoc(a: string, b: string, c: char)
    ensures a + b + [c] == a + (b + [c])
  {
  }

  /** Text without `/` only lengthens the last component. */
  lemma {:induction false} SegmentAppend(path: string, file: string)
    requires '/' !in file
    ensures LastSegment(path + file) == LastSegment(path) + file
  {
    if file == [] {
      assert path + file == path;
    } else {
      var init, c := file[..|file| - 1], file[|file| - 1];
      SegmentAppend(path, init);
      SegmentGrows(path + init, c);
      Snoc(path, init, c);
      Snoc(LastSegment(path), init, c);
      assert init + [c] == file;
    }
  }

  /** The last component of a command, whatever directory it is in. */
  lemma FileNameOf(dir: string, file: string)
    requires IsFile(file)
    ensures FileName(file) == Some(file) && FileName(dir + "/" + file) == Some(file)
  {
    SegmentAppend([], file);
    assert [] + file == file;
    SegmentGrows(dir, '/');
    SegmentAppend(dir + "/", file);
    var path := dir + "/" + file;
    assert path[|path| - 1] == file[|file| - 1];
  }

  /** The commands that tell an account of any other name. */
  function CommandOf(file: string): Option<string> {
    if file == "claude-agent-acp" || file == "claude-acp" then Some("claude")
    else if file == "codex-acp" then Some("codex")
    else if file == "grok" then Some("grok") else if file == "kimi" then Some("kimi") else None
  }

  /** An adapter is known by its file name, in any directory. */
  lemma ProviderByCommand(dir: string, file: string)
    requires IsFile(file)
    ensures CommandProvider(Some(file)) == CommandProvider(Some(dir + "/" + file)) == CommandOf(file)
  {
    FileNameOf(dir, file);
  }

  /** An entry of another name is the provider's whose adapter it runs. */
  lemma ProviderOfOtherName(v: Json)
    requires Pointer(v, "usage_source", "type").None? && NameOf(v).Some? && !IsProvider(BaseName(NameOf(v).value))
    ensures EntryProvider(v) == CommandProvider(Pointer(v, "command", "command"))
    ensures Pointer(v, "command", "command").None? ==> EntryProvider(v).None?
  {
  }

  // ---- The merge ----

  /** Where each field of a merged account entry comes from. */
  function FieldFrom(offer: map<string, Json>, current: map<string, Json>, name: string, key: string): Option<Json> {
    if key == "name" then Some(Str(name))
    else if key in ACCOUNT_FIELDS && key in current then Some(current[key])
    else if key in ACCOUNT_FIELDS && key != "account_plan" then None
    else MapGet(offer, key)
  }

  function MergeEntry(offer: map<string, Json>, current: map<string, Json>, name: string): map<string, Json> {
    map key | key in offer.Keys + current.Keys + {"name"} && FieldFrom(offer, current, name, key).Some?
      :: FieldFrom(offer, current, name, key).value
  }

  /** The proposed entry of the account's name, or of the name it had before it
      became an account when no live entry still has that name. */
  function OfferFor(name: string, offered: seq<Json>, live: seq<Json>): (offer: Option<Json>)
    ensures offer.Some? ==> offer.value.Obj?
  {
    var same := FindNamed(offered, name);
    if same.Some? then same
    else if '@' in name && FindNamed(live, BaseName(name)).None? then FindNamed(offered, BaseName(name))
    else None
  }

  function Account(current: Json, offered: seq<Json>, live: seq<Json>): Json {
    var name := NameOf(current);
    if name.None? then current else
    var offer := OfferFor(name.value, offered, live);
    if offer.None? then current else Obj(MergeEntry(offer.value.fields, current.fields, name.value))
  }

  /** The live account entries, in live order. */
  function AccountsOf(live: seq<Json>): seq<Json> {
    Pick(live, IsAccount)
  }

  predicate IsAccount(v: Json) {
    EntryProvider(v).Some?
  }

  function Pick(s: seq<Json>, keep: Json -> bool): seq<Json> {
    if s == [] then [] else Pick(s[..|s| - 1], keep) + if keep(s[|s| - 1]) then [s[|s| - 1]] else []
  }

  function MergedAccounts(accounts: seq<Json>, offered: seq<Json>, live: seq<Json>): (merged: seq<Json>)
    ensures |merged| == |accounts|
    ensures forall i :: 0 <= i < |accounts| ==> merged[i] == Account(accounts[i], offered, live)
  {
    seq(|accounts|, i requires 0 <= i < |accounts| => Account(accounts[i], offered, live))
  }

  predicate NameTaken(agents: seq<Json>, v: Json) {
    exists i :: 0 <= i < |agents| && NameOf(agents[i]).Some? && NameOf(agents[i]) == NameOf(v)
  }

  predicate Keeps(agents: seq<Json>, offer: Json) {
    EntryProvider(offer).None? && !NameTaken(agents, offer)
  }

  /** Offers that are no accounts join, unless their name is taken. */
  function AddOffers(agents: seq<Json>, offered: seq<Json>): seq<Json>
    decreases |offered|
  {
    if offered == [] then agents
    else
      var before := AddOffers(agents, offered[..|offered| - 1]);
      var offer := offered[|offered| - 1];
      if Keeps(before, offer) then before + [offer] else before
  }

  function OfferedBy(proposed: Json): seq<Json> {
    var agents := AgentsOf(proposed);
    if agents.Some? then agents.value else []
  }

  function MergedAgents(offered: seq<Json>, live: seq<Json>): seq<Json> {
    AddOffers(MergedAccounts(AccountsOf(live), offered, live), offered)
  }

  /** Assigning a field works on an object and turns null into one; any other
      document panics, but only when there are live agents to assign. */
  predicate Assignable(proposed: Json, live: Json) {
    AgentsOf(live).Some? ==> proposed.Obj? || proposed.Null?
  }

  function FieldsOf(proposed: Json): map<string, Json> {
    if proposed.Obj? then proposed.fields else map[]
  }

  function Merged(proposed: Json, live: Json): Json
    requires Assignable(proposed, live)
  {
    var agents := AgentsOf(live);
    if agents.None? then proposed
    else Obj(FieldsOf(proposed)["agents" := Arr(MergedAgents(OfferedBy(proposed), agents.value))])
  }

  // ---- What the merge guarantees ----

  /** Name, provider and router-owned fields are the live ones; a plan label the
      live entry lacks may come from the host. */
  ghost predicate KeepsIdentity(entry: Json, current: Json) {
    && NameOf(entry) == NameOf(current)
    && EntryProvider(entry) == EntryProvider(current)
    && forall key :: RouterOwned(key) && (key != "account_plan" || Get(current, key).Some?) ==>
         Get(entry, key) == Get(current, key)
  }

  /** What an account entry records about the account itself. */
  predicate RouterOwned(key: string) {
    || key == "command" || key == "accounts" || key == "account_disabled" || key == "account_priority"
    || key == "account_plan" || key == "reserve_capacity" || key == "login_command" || key == "auth_probe"
    || key == "usage_source" || key == "lineage"
  }

  lemma AccountFields(key: string)
    ensures key in ACCOUNT_FIELDS <==> RouterOwned(key)
  {
    var f := ACCOUNT_FIELDS;
    assert f[0] == "command" && f[1] == "accounts" && f[2] == "account_disabled" && f[3] == "account_priority";
    assert f[4] == "account_plan" && f[5] == "reserve_capacity" && f[6] == "login_command" && f[7] == "auth_probe";
    assert f[8] == "usage_source" && f[9] == "lineage" && |f| == 10;
  }

  lemma MergedField(offer: map<string, Json>, current: map<string, Json>, name: string, key: string)
    ensures MapGet(MergeEntry(offer, current, name), key) == FieldFrom(offer, current, name, key)
  {
  }

  lemma AccountKeepsIdentity(current: Json, offered: seq<Json>, live: seq<Json>)
    ensures KeepsIdentity(Account(current, offered, live), current)
  {
    var name := NameOf(current);
    if name.Some? && OfferFor(name.value, offered, live).Some? {
      var offer := OfferFor(name.value, offered, live).value.fields;
      var entry := Account(current, offered, live);
      forall key
        ensures Get(entry, key) == FieldFrom(offer, current.fields, name.value, key)
      {
        MergedField(offer, current.fields, name.value, key);
      }
      forall key
        ensures key in ACCOUNT_FIELDS <==> RouterOwned(key)
      {
        AccountFields(key);
      }
      assert Get(entry, "usage_source") == Get(current, "usage_source");
      assert Get(entry, "command") == Get(current, "command");
      assert Get(entry, "name") == Some(Str(name.value));
    }
  }

  /** Everything else on a merged account is the host's: each other field of the
      entry is the offer's, present or absent. */
  lemma AccountTakesOffer(current: Json, offered: seq<Json>, live: seq<Json>, key: string)
    requires NameOf(current).Some? && OfferFor(NameOf(current).value, offered, live).Some?
    requires key != "name" && !RouterOwned(key)
    ensures Get(Account(current, offered, live), key) == Get(OfferFor(NameOf(current).value, offered, live).value, key)
  {
    var name := NameOf(current).value;
    AccountFields(key);
    MergedField(OfferFor(name, offered, live).value.fields, current.fields, name, key);
  }

  /** Each entry of `kept` was acceptable when it joined. */
  ghost predicate Accepted(agents: seq<Json>, kept: seq<Json>) {
    forall i :: 0 <= i < |kept| ==> Keeps(agents + kept[..i], kept[i])
  }

  lemma {:induction false} OffersJoin(agents: seq<Json>, offered: seq<Json>) returns (kept: seq<Json>)
    ensures AddOffers(agents, offered) == agents + kept && Accepted(agents, kept)
    ensures forall v :: v in kept ==> v in offered
    decreases |offered|
  {
    if offered == [] {
      kept := [];
    } else {
      var init, offer := offered[..|offered| - 1], offered[|offered| - 1];
      kept := OffersJoin(agents, init);
      if Keeps(agents + kept, offer) {
        assert forall i :: 0 <= i <= |kept| ==> (kept + [offer])[..i] == kept[..i];
        kept := kept + [offer];
      }
    }
  }

  /** Every live account survives, in live order, as the router knows it; no
      other entry of the result is an account, and each of those was proposed. */
  lemma AccountsSurvive(offered: seq<Json>, live: seq<Json>)
    ensures var accounts, result := AccountsOf(live), MergedAgents(offered, live);
            && |accounts| <= |result|
            && (forall i :: 0 <= i < |accounts| ==> KeepsIdentity(result[i], accounts[i]))
            && (forall i :: |accounts| <= i < |result| ==> EntryProvider(result[i]).None? && result[i] in offered)
  {
    var accounts := AccountsOf(live);
    var merged := MergedAccounts(accounts, offered, live);
    var kept := OffersJoin(merged, offered);
    forall i | 0 <= i < |accounts|
      ensures KeepsIdentity(MergedAgents(offered, live)[i], accounts[i])
    {
      AccountKeepsIdentity(accounts[i], offered, live);
    }
    forall i | |accounts| <= i < |merged + kept|
      ensures EntryProvider((merged + kept)[i]).None? && (merged + kept)[i] in offered
    {
      assert (merged + kept)[i] == kept[i - |accounts|];
      assert Keeps(merged + kept[..i - |accounts|], kept[i - |accounts|]);
    }
  }

  lemma {:induction false} AccountsAreLive(live: seq<Json>)
    ensures forall v :: v in AccountsOf(live) <==> v in live && EntryProvider(v).Some?
  {
    if live != [] {
      AccountsAreLive(live[..|live| - 1]);
      assert live == live[..|live| - 1] + [live[|live| - 1]];
    }
  }

  /** A proposed agent that is no account is kept as proposed, unless an entry of
      the result already has its name. */
  lemma {:induction false} OthersAreKept(agents: seq<Json>, offered: seq<Json>, v: Json)
    requires v in offered && EntryProvider(v).None?
    ensures v in AddOffers(agents, offered) || NameTaken(AddOffers(agents, offered), v)
    decreases |offered|
  {
    var init, offer := offered[..|offered| - 1], offered[|offered| - 1];
    var before := AddOffers(agents, init);
    if v == offer {
      if !Keeps(before, v) {
        assert NameTaken(before, v);
      }
    } else {
      assert v in init;
      OthersAreKept(agents, init, v);
      if NameTaken(before, v) {
        var i :| 0 <= i < |before| && NameOf(before[i]).Some? && NameOf(before[i]) == NameOf(v);
        assert AddOffers(agents, offered)[i] == before[i];
      }
    }
  }

  // ---- The whole document ----

  /** How many of the first `i` entries are kept. */
  ghost function KeptBefore(s: seq<Json>, keep: Json -> bool, i: nat): nat
    requires i <= |s|
  {
    |set j | 0 <= j < i && keep(s[j])|
  }

  lemma KeptBeforeNext(s: seq<Json>, keep: Json -> bool, i: nat)
    requires i < |s|
    ensures KeptBefore(s, keep, i + 1) == KeptBefore(s, keep, i) + if keep(s[i]) then 1 else 0
  {
    var before := set j | 0 <= j < i && keep(s[j]);
    var last := if keep(s[i]) then {i} else {};
    assert (set j | 0 <= j < i + 1 && keep(s[j])) == before + last;
  }

  lemma KeptBeforePrefix(s: seq<Json>, keep: Json -> bool, n: nat, i: nat)
    requires i <= n <= |s|
    ensures KeptBefore(s[..n], keep, i) == KeptBefore(s, keep, i)
  {
    var part := s[..n];
    assert (set j | 0 <= j < i && keep(part[j])) == (set j | 0 <= j < i && keep(s[j]));
  }

  lemma {:induction false} PickSize(s: seq<Json>, keep: Json -> bool)
    ensures |Pick(s, keep)| == KeptBefore(s, keep, |s|)
  {
    if s != [] {
      var init := s[..|s| - 1];
      PickSize(init, keep);
      KeptBeforePrefix(s, keep, |init|, |init|);
      KeptBeforeNext(s, keep, |init|);
    }
  }

  /** What is picked is in its place. */
  lemma {:induction false} PickPlace(s: seq<Json>, keep: Json -> bool, i: nat)
    requires i < |s| && keep(s[i])
    ensures KeptBefore(s, keep, i) < |Pick(s, keep)| && Pick(s, keep)[KeptBefore(s, keep, i)] == s[i]
  {
    var init := s[..|s| - 1];
    KeptBeforePrefix(s, keep, |init|, i);
    if i < |init| {
      PickPlace(init, keep, i);
    } else {
      PickSize(init, keep);
    }
  }

  /** How many of the first `i` live entries are accounts. */
  ghost function AccountsBefore(live: seq<Json>, i: nat): nat
    requires i <= |live|
  {
    |set j | 0 <= j < i && EntryProvider(live[j]).Some?|
  }

  lemma AccountsBeforeKept(live: seq<Json>, i: nat)
    requires i <= |live|
    ensures AccountsBefore(live, i) == KeptBefore(live, IsAccount, i)
  {
    var keep: Json -> bool := IsAccount;
    var accounts, kept := set j | 0 <= j < i && EntryProvider(live[j]).Some?, set j | 0 <= j < i && keep(live[j]);
    assert forall j :: 0 <= j < i ==> keep(live[j]) == EntryProvider(live[j]).Some?;
    assert accounts == kept;
  }

  /** Live entry `i`, an account, is account number `AccountsBefore(live, i)`. */
  lemma AccountPlace(live: seq<Json>, i: nat)
    requires i < |live| && EntryProvider(live[i]).Some?
    ensures var n := AccountsBefore(live, i); n < |AccountsOf(live)| && AccountsOf(live)[n] == live[i]
  {
    AccountsBeforeKept(live, i);
    PickPlace(live, IsAccount, i);
  }

  lemma AccountTotal(live: seq<Json>)
    ensures |AccountsOf(live)| == AccountsBefore(live, |live|)
  {
    AccountsBeforeKept(live, |live|);
    PickSize(live, IsAccount);
  }

  predicate FirstNamed(entries: seq<Json>, name: string, k: nat) {
    k < |entries| && NameOf(entries[k]) == Some(name) && forall j :: 0 <= j < k ==> NameOf(entries[j]) != Some(name)
  }

  predicate NoneNamed(entries: seq<Json>, name: string) {
    forall j :: 0 <= j < |entries| ==> NameOf(entries[j]) != Some(name)
  }

  lemma {:induction false} FindNone(entries: seq<Json>, name: string)
    ensures FindNamed(entries, name).None? <==> NoneNamed(entries, name)
  {
    if entries != [] {
      FindNone(entries[1..], name);
      assert forall j :: 1 <= j < |entries| ==> entries[j] == entries[1..][j - 1];
    }
  }

  lemma {:induction false} FindIsFirst(entries: seq<Json>, name: string, k: nat)
    requires FirstNamed(entries, name, k)
    ensures FindNamed(entries, name) == Some(entries[k])
  {
    if k > 0 {
      assert entries[1..][k - 1] == entries[k];
      FindIsFirst(entries[1..], name, k - 1);
    }
  }

  /** Proposed entry `k` is the one for account `name`: the first of that name,
      or, if there is none, the first of the name before the `@` that no live
      entry has any more. */
  predicate OfferAt(offered: seq<Json>, live: seq<Json>, name: string, k: nat) {
    || FirstNamed(offered, name, k)
    || (NoneNamed(offered, name) && '@' in name && NoneNamed(live, BaseName(name))
        && FirstNamed(offered, BaseName(name), k))
  }

  predicate NoOffer(offered: seq<Json>, live: seq<Json>, name: string) {
    NoneNamed(offered, name) && ('@' in name && NoneNamed(live, BaseName(name)) ==> NoneNamed(offered, BaseName(name)))
  }

  lemma OfferIsFirst(offered: seq<Json>, live: seq<Json>, name: string)
    ensures NoOffer(offered, live, name) <==> OfferFor(name, offered, live).None?
    ensures forall k :: 0 <= k < |offered| && OfferAt(offered, live, name, k) ==>
              OfferFor(name, offered, live) == Some(offered[k])
  {
    FindNone(offered, name);
    FindNone(offered, BaseName(name));
    FindNone(live, BaseName(name));
    forall k | 0 <= k < |offered| && OfferAt(offered, live, name, k)
      ensures OfferFor(name, offered, live) == Some(offered[k])
    {
      FindIsFirst(offered, if FirstNamed(offered, name, k) then name else BaseName(name), k);
    }
  }

  /** The merged account `entry` is `current` without an offer; with offer `k` it
      has every field that is neither the name nor router-owned from there, and a
      plan label too while the live entry has none. */
  ghost predicate TakesSettings(entry: Json, current: Json, offered: seq<Json>, live: seq<Json>) {
    if NameOf(current).None? || NoOffer(offered, live, NameOf(current).value) then entry == current
    else
      forall k, key :: 0 <= k < |offered| && OfferAt(offered, live, NameOf(current).value, k)
                       && key != "name" && (!RouterOwned(key) || (key == "account_plan" && Get(current, key).None?)) ==>
        Get(entry, key) == Get(offered[k], key)
  }

  lemma AccountTakesSettings(current: Json, offered: seq<Json>, live: seq<Json>)
    ensures TakesSettings(Account(current, offered, live), current, offered, live)
  {
    if NameOf(current).Some? && !NoOffer(offered, live, NameOf(current).value) {
      var name := NameOf(current).value;
      OfferIsFirst(offered, live, name);
      forall k, key | 0 <= k < |offered| && OfferAt(offered, live, name, k)
                      && key != "name" && (!RouterOwned(key) || (key == "account_plan" && Get(current, key).None?))
        ensures Get(Account(current, offered, live), key) == Get(offered[k], key)
      {
        AccountFields(key);
        MergedField(offered[k].fields, current.fields, name, key);
      }
    } else if NameOf(current).Some? {
      OfferIsFirst(offered, live, NameOf(current).value);
    }
  }

  /** Every live account is in its place among the live accounts, as the router
      knows it, with the host's other settings. */
  ghost predicate KeepsAccounts(result: seq<Json>, offered: seq<Json>, live: seq<Json>) {
    && AccountsBefore(live, |live|) <= |result|
    && forall i :: 0 <= i < |live| && EntryProvider(live[i]).Some? ==>
         && AccountsBefore(live, i) < |result|
         && KeepsIdentity(result[AccountsBefore(live, i)], live[i])
         && TakesSettings(result[AccountsBefore(live, i)], live[i], offered, live)
  }

  /** Every later entry was proposed, is no account, and has a name of its own;
      every proposed agent that is no account is there or its name is. */
  ghost predicate KeepsOthers(result: seq<Json>, offered: seq<Json>, live: seq<Json>) {
    && (forall k :: AccountsBefore(live, |live|) <= k < |result| ==>
          result[k] in offered && EntryProvider(result[k]).None? && !NameTaken(result[..k], result[k]))
    && (forall v :: v in offered && EntryProvider(v).None? ==> v in result || NameTaken(result, v))
  }

  lemma AgentsAreKept(offered: seq<Json>, live: seq<Json>)
    ensures KeepsAccounts(MergedAgents(offered, live), offered, live)
    ensures KeepsOthers(MergedAgents(offered, live), offered, live)
  {
    var accounts := AccountsOf(live);
    var merged := MergedAccounts(accounts, offered, live);
    var kept := OffersJoin(merged, offered);
    var result := merged + kept;
    AccountTotal(live);
    forall i | 0 <= i < |live| && EntryProvider(live[i]).Some?
      ensures var n := AccountsBefore(live, i);
              n < |result| && KeepsIdentity(result[n], live[i]) && TakesSettings(result[n], live[i], offered, live)
    {
      AccountPlace(live, i);
      AccountKeepsIdentity(live[i], offered, live);
      AccountTakesSettings(live[i], offered, live);
    }
    forall k | |merged| <= k < |result|
      ensures result[k] in offered && EntryProvider(result[k]).None? && !NameTaken(result[..k], result[k])
    {
      assert Keeps(merged + kept[..k - |merged|], kept[k - |merged|]);
      assert result[..k] == merged + kept[..k - |merged|];
    }
    forall v | v in offered && EntryProvider(v).None?
      ensures v in result || NameTaken(result, v)
    {
      OthersAreKept(merged, offered, v);
    }
  }

  /** What saving a host's document gives: without live agents the document as it
      is; otherwise every other setting of it, and agents that keep the router's
      accounts and the host's other agents. */
  ghost predicate KeepsDocument(result: Json, proposed: Json, live: Json) {
    if AgentsOf(live).None? then result == proposed
    else
      && (forall key :: key != "agents" ==> Get(result, key) == Get(proposed, key))
      && AgentsOf(result).Some?
      && KeepsAccounts(AgentsOf(result).value, OfferedBy(proposed), AgentsOf(live).value)
      && KeepsOthers(AgentsOf(result).value, OfferedBy(proposed), AgentsOf(live).value)
  }

  lemma DocumentIsKept(proposed: Json, live: Json)
    requires Assignable(proposed, live)
    ensures KeepsDocument(Merged(proposed, live), proposed, live)
  {
    if AgentsOf(live).Some? {
      AgentsAreKept(OfferedBy(proposed), AgentsOf(live).value);
    }
  }

  // ---- Applying it twice ----

  predicate DistinctNames(entries: seq<Json>) {
    forall i, j :: 0 <= i < j < |entries| && NameOf(entries[i]).Some? ==> NameOf(entries[i]) != NameOf(entries[j])
  }

  lemma {:induction false} FindFirst(entries: seq<Json>, rest: seq<Json>, k: nat)
    requires DistinctNames(entries) && k < |entries| && NameOf(entries[k]).Some?
    ensures FindNamed(entries + rest, NameOf(entries[k]).value) == Some(entries[k])
  {
    assert (entries + rest)[0] == entries[0];
    if k > 0 {
      assert (entries + rest)[1..] == entries[1..] + rest;
      assert entries[1..][k - 1] == entries[k];
      FindFirst(entries[1..], rest, k - 1);
    }
  }

  /** Merging the live fields into an entry that already has them changes nothing. */
  lemma MergeAgain(offer: map<string, Json>, current: map<string, Json>, name: string)
    ensures MergeEntry(MergeEntry(offer, current, name), current, name) == MergeEntry(offer, current, name)
    ensures MapGet(current, "name") == Some(Str(name)) ==> MergeEntry(current, current, name) == current
  {
    var once := MergeEntry(offer, current, name);
    var twice := MergeEntry(once, current, name);
    forall key
      ensures MapGet(twice, key) == MapGet(once, key)
    {
      MergedField(once, current, name, key);
      MergedField(offer, current, name, key);
    }
    SameFields(twice, once);
    if MapGet(current, "name") == Some(Str(name)) {
      var same := MergeEntry(current, current, name);
      forall key
        ensures MapGet(same, key) == MapGet(current, key)
      {
        MergedField(current, current, name, key);
      }
      SameFields(same, current);
    }
  }

  lemma SameFields(a: map<string, Json>, b: map<string, Json>)
    requires forall key :: MapGet(a, key) == MapGet(b, key)
    ensures a == b
  {
    forall key
      ensures key in a <==> key in b
      ensures key in a && key in b ==> a[key] == b[key]
    {
      assert MapGet(a, key) == MapGet(b, key);
    }
  }

  lemma AccountAgain(accounts: seq<Json>, offered: seq<Json>, live: seq<Json>, kept: seq<Json>, k: nat)
    requires k < |accounts| && DistinctNames(accounts)
    ensures var merged := MergedAccounts(accounts, offered, live);
            Account(accounts[k], merged + kept, live) == merged[k]
  {
    var merged := MergedAccounts(accounts, offered, live);
    var current := accounts[k];
    if NameOf(current).Some? {
      forall i | 0 <= i < |accounts|
        ensures NameOf(merged[i]) == NameOf(accounts[i])
      {
        AccountKeepsIdentity(accounts[i], offered, live);
      }
      FindFirst(merged, kept, k);
      var name := NameOf(current).value;
      var offer := OfferFor(name, offered, live);
      MergeAgain(if offer.Some? then offer.value.fields else map[], current.fields, name);
    }
  }

  lemma {:induction false} AcceptedJoin(agents: seq<Json>, kept: seq<Json>)
    requires Accepted(agents, kept)
    ensures AddOffers(agents, kept) == agents + kept
  {
    if kept == [] {
    } else {
      var init := kept[..|kept| - 1];
      forall i | 0 <= i < |init|
        ensures Keeps(agents + init[..i], init[i])
      {
        assert init[..i] == kept[..i];
        assert Keeps(agents + kept[..i], kept[i]);
      }
      AcceptedJoin(agents, init);
      assert Keeps(agents + kept[..|kept| - 1], kept[|kept| - 1]);
    }
  }

  lemma {:induction false} AccountsDoNotJoin(agents: seq<Json>, accounts: seq<Json>, more: seq<Json>)
    requires forall i :: 0 <= i < |accounts| ==> EntryProvider(accounts[i]).Some?
    ensures AddOffers(agents, accounts + more) == AddOffers(agents, more)
    decreases |accounts| + |more|
  {
    var all := accounts + more;
    if more != [] {
      assert all[..|all| - 1] == accounts + more[..|more| - 1];
      AccountsDoNotJoin(agents, accounts, more[..|more| - 1]);
    } else if accounts != [] {
      assert all[..|all| - 1] == accounts[..|accounts| - 1] + [];
      AccountsDoNotJoin(agents, accounts[..|accounts| - 1], []);
    }
  }

  lemma AgentsIdempotent(offered: seq<Json>, live: seq<Json>)
    requires DistinctNames(AccountsOf(live))
    ensures MergedAgents(MergedAgents(offered, live), live) == MergedAgents(offered, live)
  {
    var accounts := AccountsOf(live);
    var merged := MergedAccounts(accounts, offered, live);
    var kept := OffersJoin(merged, offered);
    var again := MergedAccounts(accounts, merged + kept, live);
    forall k | 0 <= k < |accounts|
      ensures again[k] == merged[k]
    {
      AccountAgain(accounts, offered, live, kept, k);
    }
    assert again == merged;
    AccountsAreLive(live);
    forall i | 0 <= i < |merged|
      ensures EntryProvider(merged[i]).Some?
    {
      AccountKeepsIdentity(accounts[i], offered, live);
      assert accounts[i] in accounts;
    }
    AccountsDoNotJoin(merged, merged, kept);
    AcceptedJoin(merged, kept);
  }

  /** Saving the same document again changes nothing. */
  lemma MergeIsIdempotent(proposed: Json, live: Json)
    requires Assignable(proposed, live)
    requires AgentsOf(live).Some? ==> DistinctNames(AccountsOf(AgentsOf(live).value))
    ensures Merged(Merged(proposed, live), live) == Merged(proposed, live)
  {
    if AgentsOf(live).Some? {
      AgentsIdempotent(OfferedBy(proposed), AgentsOf(live).value);
    }
  }

  // ---- The merge as it runs ----

  /** Overwrite the router-owned fields of `next`, one by one. */
  method RestoreFields(offer: map<string, Json>, current: map<string, Json>, name: string)
    returns (next: map<string, Json>)
    ensures next == MergeEntry(offer, current, name)
  {
    next := offer["name" := Str(name)];
    for i := 0 to |ACCOUNT_FIELDS|
      invariant forall key :: (MapGet(next, key)
                               == if key in ACCOUNT_FIELDS[..i] || key == "name"
                                  then FieldFrom(offer, current, name, key)
                                  else MapGet(offer, key))
    {
      var field := ACCOUNT_FIELDS[i];
      assert ACCOUNT_FIELDS[..i + 1] == ACCOUNT_FIELDS[..i] + [field];
      assert field != "name";
      if field in current {
        next := next[field := current[field]];
      } else if field != "account_plan" {
        next := next - {field};
      }
    }
    assert ACCOUNT_FIELDS[..|ACCOUNT_FIELDS|] == ACCOUNT_FIELDS;
    forall key
      ensures MapGet(next, key) == MapGet(MergeEntry(offer, current, name), key)
    {
      MergedField(offer, current, name, key);
    }
    SameFields(next, MergeEntry(offer, current, name));
  }

  /** The first loop: every live account, with its offer's other settings. */
  method MergeAccounts(live: seq<Json>, offered: seq<Json>) returns (agents: seq<Json>)
    ensures agents == MergedAccounts(AccountsOf(live), offered, live)
  {
    agents := [];
    for i := 0 to |live|
      invariant agents == MergedAccounts(AccountsOf(live[..i]), offered, live)
    {
      var current := live[i];
      assert live[..i + 1][..i] == live[..i];
      if EntryProvider(current).Some? {
        var next := MergeAccount(current, offered, live);
        agents := agents + [next];
      }
    }
    assert live[..|live|] == live;
  }

  method MergeAccount(current: Json, offered: seq<Json>, live: seq<Json>) returns (next: Json)
    ensures next == Account(current, offered, live)
  {
    var name := NameOf(current);
    if name.None? {
      return current;
    }
    var offer := OfferFor(name.value, offered, live);
    if offer.None? {
      return current;
    }
    var fields := RestoreFields(offer.value.fields, current.fields, name.value);
    next := Obj(fields);
  }

  /** The second loop: the offers that are no accounts. */
  method AddOthers(accounts: seq<Json>, offered: seq<Json>) returns (agents: seq<Json>)
    ensures agents == AddOffers(accounts, offered)
  {
    agents := accounts;
    for i := 0 to |offered|
      invariant agents == AddOffers(accounts, offered[..i])
    {
      assert offered[..i + 1][..i] == offered[..i];
      if EntryProvider(offered[i]).None? && !NameTaken(agents, offered[i]) {
        agents := agents + [offered[i]];
      }
    }
    assert offered[..|offered|] == offered;
  }

  method KeepRouterAccounts(proposed: Json, live: Json) returns (result: Json)
    requires Assignable(proposed, live)
    ensures result == Merged(proposed, live)
    ensures KeepsDocument(result, proposed, live)
  {
    DocumentIsKept(proposed, live);
    var liveAgents := AgentsOf(live);
    if liveAgents.None? {
      return proposed;
    }
    var offered := OfferedBy(proposed);
    var accounts := MergeAccounts(liveAgents.value, offered);
    var agents := AddOthers(accounts, offered);
    result := Obj(FieldsOf(proposed)["agents" := Arr(agents)]);
  }
}
