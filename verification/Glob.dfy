/** Glob patterns and score lookup of src/candidate.rs, on the bytes they compare. */
module Glob {
  import opened Common

  const STAR: Byte := 42
  const SLASH: Byte := 47
  const AT: Byte := 64

  function Lower(b: Byte): Byte {
    if 65 <= b <= 90 then b + 32 else b
  }

  predicate Same(a: Byte, b: Byte) {
    Lower(a) == Lower(b)
  }

  predicate GlobMatch(p: seq<Byte>, t: seq<Byte>) {
    if p == [] then t == []
    else if p[0] == STAR then exists i :: 0 <= i <= |t| && GlobMatch(p[1..], t[i..])
    else t != [] && Same(p[0], t[0]) && GlobMatch(p[1..], t[1..])
  }

  /** Equal bytes, or the two cases of one ASCII letter. */
  lemma SameExactly(a: Byte, b: Byte)
    ensures STAR == '*' as int && SLASH == '/' as int && AT == '@' as int
    ensures Same(a, b) <==> a == b || (65 <= a <= 90 && b == a + 32) || (97 <= a <= 122 && b == a - 32)
  {
  }

  // ---- What a pattern means ----

  function Stars(p: seq<Byte>): nat {
    if p == [] then 0 else Stars(p[1..]) + if p[0] == STAR then 1 else 0
  }

  /** The pattern with each `*` replaced by its own text. */
  function Fill(p: seq<Byte>, fills: seq<seq<Byte>>): seq<Byte>
    requires |fills| == Stars(p)
  {
    if p == [] then []
    else if p[0] == STAR then fills[0] + Fill(p[1..], fills[1..])
    else [p[0]] + Fill(p[1..], fills)
  }

  predicate SameText(a: seq<Byte>, b: seq<Byte>) {
    |a| == |b| && forall i :: 0 <= i < |a| ==> Same(a[i], b[i])
  }

  lemma SameTextJoin(a: seq<Byte>, b: seq<Byte>, c: seq<Byte>, d: seq<Byte>)
    requires SameText(a, c) && SameText(b, d)
    ensures SameText(a + b, c + d)
  {
  }

  lemma SameTextSplit(a: seq<Byte>, b: seq<Byte>, t: seq<Byte>)
    requires SameText(a + b, t)
    ensures |a| <= |t| && SameText(a, t[..|a|]) && SameText(b, t[|a|..])
  {
    forall i | 0 <= i < |a|
      ensures Same(a[i], t[..|a|][i])
    {
      assert (a + b)[i] == a[i];
    }
    forall i | 0 <= i < |b|
      ensures Same(b[i], t[|a|..][i])
    {
      assert (a + b)[|a| + i] == b[i];
    }
  }

  /** Each match comes with the texts its stars stand for. */
  lemma {:induction false} MatchFills(p: seq<Byte>, t: seq<Byte>) returns (fills: seq<seq<Byte>>)
    requires GlobMatch(p, t)
    ensures |fills| == Stars(p) && SameText(Fill(p, fills), t)
  {
    if p == [] {
      fills := [];
    } else if p[0] == STAR {
      var i :| 0 <= i <= |t| && GlobMatch(p[1..], t[i..]);
      var rest := MatchFills(p[1..], t[i..]);
      fills := [t[..i]] + rest;
      assert fills[1..] == rest;
      SameTextJoin(t[..i], Fill(p[1..], rest), t[..i], t[i..]);
      assert t[..i] + t[i..] == t;
    } else {
      fills := MatchFills(p[1..], t[1..]);
      SameTextJoin([p[0]], Fill(p[1..], fills), [t[0]], t[1..]);
      assert [t[0]] + t[1..] == t;
    }
  }

  lemma {:induction false} FillMatches(p: seq<Byte>, t: seq<Byte>, fills: seq<seq<Byte>>)
    requires |fills| == Stars(p) && SameText(Fill(p, fills), t)
    ensures GlobMatch(p, t)
  {
    if p != [] {
      if p[0] == STAR {
        SameTextSplit(fills[0], Fill(p[1..], fills[1..]), t);
        FillMatches(p[1..], t[|fills[0]|..], fills[1..]);
      } else {
        SameTextSplit([p[0]], Fill(p[1..], fills), t);
        assert Same([p[0]][0], t[..1][0]);
        FillMatches(p[1..], t[1..], fills);
      }
    }
  }

  /** A pattern matches exactly the texts obtained by choosing a text for every
      `*`, up to ASCII case. */
  lemma GlobMeaning(p: seq<Byte>, t: seq<Byte>)
    ensures GlobMatch(p, t) <==> exists fills :: |fills| == Stars(p) && SameText(Fill(p, fills), t)
  {
    if GlobMatch(p, t) {
      var fills := MatchFills(p, t);
    }
    if fills :| |fills| == Stars(p) && SameText(Fill(p, fills), t) {
      FillMatches(p, t, fills);
    }
  }

  // ---- Scores ----

  /** A candidate by the bytes of its names. */
  datatype Seat = Seat(agent: seq<Byte>, model: seq<Byte>)
  datatype Entry<S> = Entry(pattern: seq<Byte>, scores: S)

  function Key(id: Seat): seq<Byte> {
    id.agent + [SLASH] + id.model
  }

  function BaseAgent(agent: seq<Byte>): (base: seq<Byte>)
    ensures AT !in base
  {
    if agent == [] || agent[0] == AT then [] else [agent[0]] + BaseAgent(agent[1..])
  }

  /** The agent of a seat `base@account` is `base`. */
  lemma {:induction false} BaseOfSeat(base: seq<Byte>, account: seq<Byte>)
    requires AT !in base
    ensures BaseAgent(base + [AT] + account) == base
  {
    var seat := base + [AT] + account;
    if base == [] {
      assert seat[0] == AT;
    } else {
      assert seat[1..] == base[1..] + [AT] + account;
      BaseOfSeat(base[1..], account);
    }
  }

  /** The same model on the agent an account seat belongs to. */
  function BaseOf(id: Seat): Seat {
    Seat(BaseAgent(id.agent), id.model)
  }

  predicate Applies<S>(e: Entry<S>, id: Seat) {
    GlobMatch(e.pattern, Key(id)) || (AT in id.agent && GlobMatch(e.pattern, Key(BaseOf(id))))
  }

  /** The first entry that applies, else the defaults. */
  function LookupExact<S>(entries: seq<Entry<S>>, id: Seat, default: S): S {
    if entries == [] then default
    else if Applies(entries[0], id) then entries[0].scores
    else LookupExact(entries[1..], id, default)
  }

  /** How many leading entries do not match `key`. */
  function FirstMatch<S>(entries: seq<Entry<S>>, key: seq<Byte>): (i: nat)
    ensures i <= |entries| && (i < |entries| ==> GlobMatch(entries[i].pattern, key))
    ensures forall j :: 0 <= j < i ==> !GlobMatch(entries[j].pattern, key)
  {
    if entries == [] || GlobMatch(entries[0].pattern, key) then 0 else 1 + FirstMatch(entries[1..], key)
  }

  function ScoreAt<S>(entries: seq<Entry<S>>, i: nat, default: S): S {
    if i < |entries| then entries[i].scores else default
  }

  lemma {:induction false} LookupIsFirst<S>(entries: seq<Entry<S>>, id: Seat, default: S)
    ensures AT !in id.agent ==>
              LookupExact(entries, id, default) == ScoreAt(entries, FirstMatch(entries, Key(id)), default)
    ensures AT in id.agent ==>
              var own, base := FirstMatch(entries, Key(id)), FirstMatch(entries, Key(BaseOf(id)));
              LookupExact(entries, id, default) == ScoreAt(entries, if own < base then own else base, default)
  {
    if entries != [] && !Applies(entries[0], id) {
      LookupIsFirst(entries[1..], id, default);
    }
  }

  /** An account seat scores as its base agent, unless an entry before the base
      agent's own match names the seat; then it has that entry's scores. */
  lemma SeatScoresAsBase<S>(entries: seq<Entry<S>>, seat: Seat, default: S)
    requires AT in seat.agent
    ensures var own, base := FirstMatch(entries, Key(seat)), FirstMatch(entries, Key(BaseOf(seat)));
            LookupExact(entries, seat, default)
            == if own < base then entries[own].scores else LookupExact(entries, BaseOf(seat), default)
  {
    LookupIsFirst(entries, seat, default);
    LookupIsFirst(entries, BaseOf(seat), default);
  }

  /** Entry `k` is the first whose pattern matches `agent/model`, spelt out. */
  predicate FirstFor<S>(entries: seq<Entry<S>>, agent: seq<Byte>, model: seq<Byte>, k: nat) {
    k < |entries| && GlobMatch(entries[k].pattern, agent + [SLASH] + model) && NoneFor(entries, agent, model, k)
  }

  predicate NoneFor<S>(entries: seq<Entry<S>>, agent: seq<Byte>, model: seq<Byte>, n: nat) {
    forall j :: 0 <= j < n && j < |entries| ==> !GlobMatch(entries[j].pattern, agent + [SLASH] + model)
  }

  lemma FirstMatchFor<S>(entries: seq<Entry<S>>, agent: seq<Byte>, model: seq<Byte>, k: nat)
    ensures FirstFor(entries, agent, model, k) ==> FirstMatch(entries, Key(Seat(agent, model))) == k
    ensures k <= |entries| && NoneFor(entries, agent, model, k) ==> FirstMatch(entries, Key(Seat(agent, model))) >= k
  {
    assert Key(Seat(agent, model)) == agent + [SLASH] + model;
    var i := FirstMatch(entries, Key(Seat(agent, model)));
    assert i < |entries| ==> GlobMatch(entries[i].pattern, agent + [SLASH] + model);
  }

  /** A plain agent has the scores of the first entry that matches its name and
      model, and the defaults without one. */
  lemma ScoresByName<S>(entries: seq<Entry<S>>, agent: seq<Byte>, model: seq<Byte>, default: S, k: nat)
    requires AT !in agent
    ensures var scores := LookupExact(entries, Seat(agent, model), default);
            && (FirstFor(entries, agent, model, k) ==> scores == entries[k].scores)
            && (NoneFor(entries, agent, model, |entries|) ==> scores == default)
  {
    LookupIsFirst(entries, Seat(agent, model), default);
    FirstMatchFor(entries, agent, model, k);
    FirstMatchFor(entries, agent, model, |entries|);
  }

  /** An account of it has those of the first entry that matches either name. */
  lemma SeatScoresByName<S>(entries: seq<Entry<S>>, base: seq<Byte>, account: seq<Byte>, model: seq<Byte>,
                            default: S, k: nat)
    requires AT !in base && k < |entries|
    requires var seat := base + [AT] + account;
             || (FirstFor(entries, base, model, k) && NoneFor(entries, seat, model, k))
             || (FirstFor(entries, seat, model, k) && NoneFor(entries, base, model, k))
    ensures LookupExact(entries, Seat(base + [AT] + account, model), default) == entries[k].scores
  {
    var seat := base + [AT] + account;
    assert seat[|base|] == AT;
    BaseOfSeat(base, account);
    LookupIsFirst(entries, Seat(seat, model), default);
    FirstMatchFor(entries, base, model, k);
    FirstMatchFor(entries, seat, model, k);
  }
}
