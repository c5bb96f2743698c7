/** The account gate of src/accounts.rs: which candidates may be used at all. */
module Gate {
  import opened Common

  /** The fields of a candidate view the gate reads. */
  datatype View = View(id: CandidateId, planHeadroom: Option<real>, onOverage: bool)

  /** A configured agent with its detected provider, if it has one. */
  datatype Agent = Agent(name: string, provider: Option<string>, accountPriority: Option<nat>)

  function Group(a: Agent): string {
    if a.provider.Some? then a.provider.value else BaseName(a.name)
  }

  /** The first configured agent of that name. */
  function Find(agents: seq<Agent>, name: string): (a: Option<Agent>)
    ensures a.Some? ==> a.value in agents && a.value.name == name
    ensures a.None? ==> forall i :: 0 <= i < |agents| ==> agents[i].name != name
  {
    if agents == [] then None
    else if agents[0].name == name then Some(agents[0])
    else Find(agents[1..], name)
  }

  /** The provider group a view belongs to; a view of an unknown agent has none. */
  function GroupOf(agents: seq<Agent>, v: View): Option<string> {
    var a := Find(agents, v.id.agent);
    if a.Some? then Some(Group(a.value)) else None
  }

  predicate HasPlan(v: View) {
    v.planHeadroom.Some? && v.planHeadroom.value > 0.0
  }

  // ---- The gate as two filters ----

  function Filter(views: seq<View>, keep: View -> bool): (kept: seq<View>)
  {
    if views == [] then []
    else if keep(views[|views| - 1]) then Filter(views[..|views| - 1], keep) + [views[|views| - 1]]
    else Filter(views[..|views| - 1], keep)
  }

  predicate Included(views: seq<View>, agents: seq<Agent>, group: string) {
    exists i :: 0 <= i < |views| && HasPlan(views[i]) && GroupOf(agents, views[i]) == Some(group)
  }

  /** Paid overage waits while the provider still has included capacity. */
  predicate PassesOverage(views: seq<View>, agents: seq<Agent>, admit: Option<CandidateId>, v: View) {
    || admit == Some(v.id) || !v.onOverage
    || GroupOf(agents, v).None? || !Included(views, agents, GroupOf(agents, v).value)
  }

  predicate Present(views: seq<View>, name: string) {
    exists i :: 0 <= i < |views| && views[i].id.agent == name
  }

  /** Agent `a` competes in `group` with priority `p`. */
  predicate Competes(views: seq<View>, a: Agent, group: string, p: nat) {
    Group(a) == group && a.accountPriority == Some(p) && Present(views, a.name)
  }

  /** `p` is the best priority any eligible account of `group` has. */
  predicate IsFirst(views: seq<View>, agents: seq<Agent>, group: string, p: nat) {
    && (exists i :: 0 <= i < |agents| && Competes(views, agents[i], group, p))
    && (forall i :: 0 <= i < |agents| && agents[i].accountPriority.Some?
                    && Competes(views, agents[i], group, agents[i].accountPriority.value)
                    ==> p <= agents[i].accountPriority.value)
  }

  predicate PassesPriority(views: seq<View>, agents: seq<Agent>, admit: Option<CandidateId>, v: View) {
    var a := Find(agents, v.id.agent);
    || admit == Some(v.id) || a.None? || a.value.accountPriority.None?
    || IsFirst(views, agents, Group(a.value), a.value.accountPriority.value)
  }

  function AfterOverage(views: seq<View>, agents: seq<Agent>, admit: Option<CandidateId>): seq<View> {
    Filter(views, v => PassesOverage(views, agents, admit, v))
  }

  function Prioritized(views: seq<View>, agents: seq<Agent>, admit: Option<CandidateId>): seq<View> {
    var eligible := AfterOverage(views, agents, admit);
    Filter(eligible, v => PassesPriority(eligible, agents, admit, v))
  }

  // ---- Filters ----

  lemma {:induction false} FilterMembers(views: seq<View>, keep: View -> bool)
    ensures forall v :: v in Filter(views, keep) <==> v in views && keep(v)
  {
    if views != [] {
      FilterMembers(views[..|views| - 1], keep);
      assert views == views[..|views| - 1] + [views[|views| - 1]];
    }
  }

  lemma {:induction false} FilterAll(views: seq<View>, keep: View -> bool)
    requires forall v :: v in views ==> keep(v)
    ensures Filter(views, keep) == views
  {
    if views != [] {
      FilterAll(views[..|views| - 1], keep);
    }
  }

  /** `at` places `part` into `whole` in order. */
  predicate Embeds(part: seq<View>, whole: seq<View>, at: seq<nat>) {
    && |at| == |part|
    && (forall i :: 0 <= i < |at| ==> at[i] < |whole| && whole[at[i]] == part[i])
    && (forall i, j :: 0 <= i < j < |at| ==> at[i] < at[j])
  }

  lemma EmbedsGrow(part: seq<View>, whole: seq<View>, at: seq<nat>, v: View)
    requires Embeds(part, whole, at)
    ensures Embeds(part, whole + [v], at) && Embeds(part + [v], whole + [v], at + [|whole|])
  {
  }

  lemma {:induction false} FilterEmbeds(views: seq<View>, keep: View -> bool) returns (at: seq<nat>)
    ensures Embeds(Filter(views, keep), views, at)
  {
    if views == [] {
      at := [];
    } else {
      var init, v := views[..|views| - 1], views[|views| - 1];
      at := FilterEmbeds(init, keep);
      EmbedsGrow(Filter(init, keep), init, at, v);
      assert init + [v] == views;
      if keep(v) {
        at := at + [|init|];
      }
    }
  }

  lemma MemberOf(views: seq<View>, agents: seq<Agent>, admit: Option<CandidateId>)
    ensures forall v :: v in AfterOverage(views, agents, admit) <==>
                          v in views && PassesOverage(views, agents, admit, v)
    ensures var eligible := AfterOverage(views, agents, admit);
            forall v :: v in Prioritized(views, agents, admit) <==>
                          v in eligible && PassesPriority(eligible, agents, admit, v)
  {
    FilterMembers(views, v => PassesOverage(views, agents, admit, v));
    var eligible := AfterOverage(views, agents, admit);
    FilterMembers(eligible, v => PassesPriority(eligible, agents, admit, v));
  }

  // ---- What the gate guarantees ----

  /** The result is the input with some views left out, in the same order. */
  lemma SubList(views: seq<View>, agents: seq<Agent>, admit: Option<CandidateId>)
    ensures exists at :: Embeds(Prioritized(views, agents, admit), views, at)
  {
    var eligible := AfterOverage(views, agents, admit);
    var a := FilterEmbeds(views, v => PassesOverage(views, agents, admit, v));
    var b := FilterEmbeds(eligible, v => PassesPriority(eligible, agents, admit, v));
    var at := seq(|b|, i requires 0 <= i < |b| => a[b[i]]);
    assert Embeds(Prioritized(views, agents, admit), views, at);
  }

  /** An admitted candidate always passes. */
  lemma AdmittedStays(views: seq<View>, agents: seq<Agent>, admit: Option<CandidateId>, v: View)
    requires v in views && admit == Some(v.id)
    ensures v in Prioritized(views, agents, admit)
  {
    MemberOf(views, agents, admit);
  }

  lemma PresentShrinks(part: seq<View>, whole: seq<View>, name: string)
    requires forall v :: v in part ==> v in whole
    ensures Present(part, name) ==> Present(whole, name)
  {
    if Present(part, name) {
      var i :| 0 <= i < |part| && part[i].id.agent == name;
      assert part[i] in whole;
    }
  }

  /** A second pass changes nothing. */
  lemma Idempotent(views: seq<View>, agents: seq<Agent>, admit: Option<CandidateId>)
    ensures Prioritized(Prioritized(views, agents, admit), agents, admit) == Prioritized(views, agents, admit)
  {
    var eligible := AfterOverage(views, agents, admit);
    var kept := Prioritized(views, agents, admit);
    MemberOf(views, agents, admit);
    forall v | v in kept
      ensures PassesOverage(kept, agents, admit, v)
    {
      var g := GroupOf(agents, v);
      if g.Some? && Included(kept, agents, g.value) {
        var i :| 0 <= i < |kept| && HasPlan(kept[i]) && GroupOf(agents, kept[i]) == Some(g.value);
        assert kept[i] in views;
        assert Included(views, agents, g.value);
      }
    }
    FilterAll(kept, v => PassesOverage(kept, agents, admit, v));
    forall v | v in kept
      ensures PassesPriority(kept, agents, admit, v)
    {
      PriorityStays(eligible, kept, agents, admit, v);
    }
    FilterAll(kept, v => PassesPriority(kept, agents, admit, v));
  }

  /** The best priority stays best while the view that has it survives. */
  lemma PriorityStays(eligible: seq<View>, kept: seq<View>, agents: seq<Agent>, admit: Option<CandidateId>, v: View)
    requires v in kept && (forall u :: u in kept ==> u in eligible)
    requires PassesPriority(eligible, agents, admit, v)
    ensures PassesPriority(kept, agents, admit, v)
  {
    var a := Find(agents, v.id.agent);
    if admit != Some(v.id) && a.Some? && a.value.accountPriority.Some? {
      var g, p := Group(a.value), a.value.accountPriority.value;
      assert Present(kept, a.value.name);
      var k :| 0 <= k < |agents| && agents[k] == a.value;
      assert Competes(kept, agents[k], g, p);
      forall i | 0 <= i < |agents| && agents[i].accountPriority.Some?
                 && Competes(kept, agents[i], g, agents[i].accountPriority.value)
        ensures p <= agents[i].accountPriority.value
      {
        PresentShrinks(kept, eligible, agents[i].name);
        assert Competes(eligible, agents[i], g, agents[i].accountPriority.value);
      }
    }
  }

  /** No survivor but the admitted one has a worse priority than an account of
      its provider that the overage filter left eligible. */
  lemma SurvivorsAreFirst(views: seq<View>, agents: seq<Agent>, admit: Option<CandidateId>, v: View, a: Agent, b: Agent)
    requires v in Prioritized(views, agents, admit) && admit != Some(v.id)
    requires Find(agents, v.id.agent) == Some(a) && a.accountPriority.Some?
    requires b in agents && b.accountPriority.Some? && Group(b) == Group(a)
    requires Present(AfterOverage(views, agents, admit), b.name)
    ensures a.accountPriority.value <= b.accountPriority.value
  {
    MemberOf(views, agents, admit);
    var k :| 0 <= k < |agents| && agents[k] == b;
    assert Competes(AfterOverage(views, agents, admit), agents[k], Group(a), b.accountPriority.value);
  }

  lemma {:induction false} FindIsFirst(agents: seq<Agent>, k: nat)
    requires k < |agents| && forall j :: 0 <= j < k ==> agents[j].name != agents[k].name
    ensures Find(agents, agents[k].name) == Some(agents[k])
  {
    if k > 0 {
      assert agents[1..][k - 1] == agents[k];
      FindIsFirst(agents[1..], k - 1);
    }
  }

  predicate DistinctNames(agents: seq<Agent>) {
    forall i, j :: 0 <= i < j < |agents| ==> agents[i].name != agents[j].name
  }

  lemma FindDistinct(agents: seq<Agent>, k: nat)
    requires DistinctNames(agents) && k < |agents|
    ensures Find(agents, agents[k].name) == Some(agents[k])
  {
    FindIsFirst(agents, k);
  }

  /** Some account attains the best priority of its group. */
  lemma {:induction false} BestExists(views: seq<View>, agents: seq<Agent>, group: string, n: nat) returns (best: int)
    requires n <= |agents|
    ensures best == -1 ==> forall i :: 0 <= i < n && agents[i].accountPriority.Some? ==>
                                        !Competes(views, agents[i], group, agents[i].accountPriority.value)
    ensures best != -1 ==>
      && 0 <= best < n && agents[best].accountPriority.Some?
      && Competes(views, agents[best], group, agents[best].accountPriority.value)
      && forall i :: 0 <= i < n && agents[i].accountPriority.Some?
                     && Competes(views, agents[i], group, agents[i].accountPriority.value)
                     ==> agents[best].accountPriority.value <= agents[i].accountPriority.value
  {
    if n == 0 {
      best := -1;
    } else {
      best := BestExists(views, agents, group, n - 1);
      var a := agents[n - 1];
      if a.accountPriority.Some? && Competes(views, a, group, a.accountPriority.value)
         && (best == -1 || a.accountPriority.value < agents[best].accountPriority.value) {
        best := n - 1;
      }
    }
  }

  ghost predicate HasGroup(views: seq<View>, agents: seq<Agent>, group: string) {
    exists v :: v in views && GroupOf(agents, v) == Some(group)
  }

  /** Every view of the group pays overage, is not admitted, and yet one of them
      reports plan headroom: the contradiction that empties a group. */
  ghost predicate Starves(views: seq<View>, agents: seq<Agent>, admit: Option<CandidateId>, group: string) {
    && Included(views, agents, group)
    && forall v :: v in views && GroupOf(agents, v) == Some(group) ==> v.onOverage && admit != Some(v.id)
  }

  lemma OverageKeepsGroup(views: seq<View>, agents: seq<Agent>, admit: Option<CandidateId>, group: string)
    requires HasGroup(views, agents, group)
    ensures HasGroup(AfterOverage(views, agents, admit), agents, group) <==> !Starves(views, agents, admit, group)
  {
    MemberOf(views, agents, admit);
    if !Starves(views, agents, admit, group) {
      var v :| v in views && GroupOf(agents, v) == Some(group)
               && (!Included(views, agents, group) || !v.onOverage || admit == Some(v.id));
      assert v in AfterOverage(views, agents, admit);
    }
  }

  lemma PriorityKeepsGroup(eligible: seq<View>, agents: seq<Agent>, admit: Option<CandidateId>, group: string)
    requires DistinctNames(agents) && HasGroup(eligible, agents, group)
    ensures exists v :: v in eligible && GroupOf(agents, v) == Some(group) && PassesPriority(eligible, agents, admit, v)
  {
    var v :| v in eligible && GroupOf(agents, v) == Some(group);
    var a := Find(agents, v.id.agent).value;
    if a.accountPriority.Some? {
      var best := BestExists(eligible, agents, group, |agents|);
      var k :| 0 <= k < |agents| && agents[k] == a;
      assert Present(eligible, a.name);
      assert Competes(eligible, agents[k], group, a.accountPriority.value);
      FindDistinct(agents, best);
      var i :| 0 <= i < |eligible| && eligible[i].id.agent == agents[best].name;
      assert IsFirst(eligible, agents, group, agents[best].accountPriority.value);
      assert PassesPriority(eligible, agents, admit, eligible[i]);
      assert GroupOf(agents, eligible[i]) == Some(group);
    } else {
      assert PassesPriority(eligible, agents, admit, v);
    }
  }

  /** A provider group keeps a candidate exactly unless all its views pay
      overage, none is admitted, and one of them still reports plan headroom. */
  lemma GroupSurvives(views: seq<View>, agents: seq<Agent>, admit: Option<CandidateId>, group: string)
    requires DistinctNames(agents) && HasGroup(views, agents, group)
    ensures HasGroup(Prioritized(views, agents, admit), agents, group) <==> !Starves(views, agents, admit, group)
  {
    MemberOf(views, agents, admit);
    OverageKeepsGroup(views, agents, admit, group);
    var eligible := AfterOverage(views, agents, admit);
    if HasGroup(eligible, agents, group) {
      PriorityKeepsGroup(eligible, agents, admit, group);
      var v :| v in eligible && GroupOf(agents, v) == Some(group) && PassesPriority(eligible, agents, admit, v);
      assert v in Prioritized(views, agents, admit);
    }
  }

  /** A single account on paid overage that still reports half of its plan: the
      gate removes the only candidate its provider has. */
  lemma OverageEmptiesGroup()
    ensures var account := Agent("claude@work", Some("claude"), Some(1));
            var view := View(CandidateId("claude@work", "opus"), Some(0.5), true);
            HasGroup([view], [account], "claude") && Prioritized([view], [account], None) == []
  {
    var account := Agent("claude@work", Some("claude"), Some(1));
    var view := View(CandidateId("claude@work", "opus"), Some(0.5), true);
    assert GroupOf([account], view) == Some("claude");
    assert [view][0] == view && view in [view];
    assert Included([view], [account], "claude");
    assert !PassesOverage([view], [account], None, view);
    MemberOf([view], [account], None);
    assert AfterOverage([view], [account], None) == [];
  }

  /** When overage means the plan is spent, no provider loses its last candidate. */
  lemma NoGroupIsLost(views: seq<View>, agents: seq<Agent>, admit: Option<CandidateId>, group: string)
    requires DistinctNames(agents) && HasGroup(views, agents, group)
    requires forall v :: v in views && v.onOverage ==> !HasPlan(v)
    ensures HasGroup(Prioritized(views, agents, admit), agents, group)
  {
    GroupSurvives(views, agents, admit, group);
    if Included(views, agents, group) {
      var i :| 0 <= i < |views| && HasPlan(views[i]) && GroupOf(agents, views[i]) == Some(group);
      assert views[i] in views;
    }
  }

  // ---- Exactly who passes ----

  /** A view of the same provider group as `v`. */
  predicate Fellow(agents: seq<Agent>, v: View, w: View) {
    GroupOf(agents, v).Some? && GroupOf(agents, w) == GroupOf(agents, v)
  }

  function PriorityOf(agents: seq<Agent>, v: View): Option<nat> {
    var a := Find(agents, v.id.agent);
    if a.Some? then a.value.accountPriority else None
  }

  /** The view would spend paid overage while a fellow has plan capacity left. */
  ghost predicate Wasteful(views: seq<View>, agents: seq<Agent>, v: View) {
    v.onOverage && exists w :: w in views && Fellow(agents, v, w) && w.planHeadroom.Some? && w.planHeadroom.value > 0.0
  }

  /** The view has a priority, and a fellow that is not wasteful, or admitted,
      has a better one. */
  ghost predicate Outranked(views: seq<View>, agents: seq<Agent>, admit: Option<CandidateId>, v: View) {
    PriorityOf(agents, v).Some?
    && exists w :: w in views && Fellow(agents, v, w) && PriorityOf(agents, w).Some?
                   && (admit == Some(w.id) || !Wasteful(views, agents, w))
                   && PriorityOf(agents, w).value < PriorityOf(agents, v).value
  }

  lemma WastefulExactly(views: seq<View>, agents: seq<Agent>, admit: Option<CandidateId>, v: View)
    ensures PassesOverage(views, agents, admit, v) <==> admit == Some(v.id) || !Wasteful(views, agents, v)
  {
    var g := GroupOf(agents, v);
    if g.Some? && Included(views, agents, g.value) {
      var i :| 0 <= i < |views| && HasPlan(views[i]) && GroupOf(agents, views[i]) == g;
      assert views[i] in views && Fellow(agents, v, views[i]);
    }
    if Wasteful(views, agents, v) {
      var w :| w in views && Fellow(agents, v, w) && w.planHeadroom.Some? && w.planHeadroom.value > 0.0;
      var i :| 0 <= i < |views| && views[i] == w;
      assert Included(views, agents, g.value);
    }
  }

  /** Two views of the group that carry priorities, the second the better one. */
  lemma BetterFellow(eligible: seq<View>, agents: seq<Agent>, v: View, k: nat) returns (w: View)
    requires DistinctNames(agents) && v in eligible && PriorityOf(agents, v).Some? && k < |agents|
    requires agents[k].accountPriority.Some? && agents[k].accountPriority.value < PriorityOf(agents, v).value
    requires Competes(eligible, agents[k], GroupOf(agents, v).value, agents[k].accountPriority.value)
    ensures w in eligible && Fellow(agents, v, w) && PriorityOf(agents, w) == agents[k].accountPriority
  {
    var i :| 0 <= i < |eligible| && eligible[i].id.agent == agents[k].name;
    w := eligible[i];
    FindDistinct(agents, k);
  }

  lemma OutrankedExactly(eligible: seq<View>, agents: seq<Agent>, admit: Option<CandidateId>, v: View)
    requires DistinctNames(agents) && v in eligible
    ensures PassesPriority(eligible, agents, admit, v) <==>
              || admit == Some(v.id) || PriorityOf(agents, v).None?
              || forall w :: w in eligible && Fellow(agents, v, w) && PriorityOf(agents, w).Some? ==>
                               PriorityOf(agents, v).value <= PriorityOf(agents, w).value
  {
    if PriorityOf(agents, v).Some? {
      var a := Find(agents, v.id.agent).value;
      var g, p := Group(a), a.accountPriority.value;
      var at :| 0 <= at < |agents| && agents[at] == a;
      var i :| 0 <= i < |eligible| && eligible[i] == v;
      assert Competes(eligible, agents[at], g, p);
      forall w | w in eligible && Fellow(agents, v, w) && PriorityOf(agents, w).Some?
        ensures IsFirst(eligible, agents, g, p) ==> p <= PriorityOf(agents, w).value
      {
        var b := Find(agents, w.id.agent).value;
        var k :| 0 <= k < |agents| && agents[k] == b;
        var j :| 0 <= j < |eligible| && eligible[j] == w;
        assert Competes(eligible, agents[k], g, b.accountPriority.value);
      }
      if !IsFirst(eligible, agents, g, p) {
        var k :| 0 <= k < |agents| && agents[k].accountPriority.Some?
                 && Competes(eligible, agents[k], g, agents[k].accountPriority.value)
                 && agents[k].accountPriority.value < p;
        var w := BetterFellow(eligible, agents, v, k);
      }
    }
  }

  /** A view passes exactly if it is admitted, or neither wasteful nor outranked. */
  lemma PassesExactly(views: seq<View>, agents: seq<Agent>, admit: Option<CandidateId>, v: View)
    requires DistinctNames(agents)
    ensures v in Prioritized(views, agents, admit) <==>
              v in views
              && (admit == Some(v.id) || (!Wasteful(views, agents, v) && !Outranked(views, agents, admit, v)))
  {
    MemberOf(views, agents, admit);
    var eligible := AfterOverage(views, agents, admit);
    forall w | w in views
      ensures w in eligible <==> admit == Some(w.id) || !Wasteful(views, agents, w)
    {
      WastefulExactly(views, agents, admit, w);
    }
    if v in eligible {
      OutrankedExactly(eligible, agents, admit, v);
    }
  }

  /** Accounts without a detected provider are grouped by their base name. */
  lemma SeatsShareGroup(base: string, account: string, p: string, priority: Option<nat>)
    requires '@' !in base
    ensures Group(Agent(base, None, priority)) == Group(Agent(base + "@" + account, None, priority)) == base
    ensures Group(Agent(base + "@" + account, Some(p), priority)) == p
  {
    BaseNameOfSeat(base, account);
  }

  // ---- The gate as it runs ----

  /** What `first` says about a group is right for the first `n` agents. */
  predicate FirstAt(first: map<string, nat>, views: seq<View>, agents: seq<Agent>, n: nat, g: string)
    requires n <= |agents|
  {
    if g in first then IsFirst(views, agents[..n], g, first[g])
    else forall i :: 0 <= i < n && agents[i].accountPriority.Some? ==>
                       !Competes(views, agents[i], g, agents[i].accountPriority.value)
  }

  ghost predicate FirstMap(first: map<string, nat>, views: seq<View>, agents: seq<Agent>, n: nat)
    requires n <= |agents|
  {
    forall g :: FirstAt(first, views, agents, n, g)
  }

  /** Two passes of `retain` around the loop that fills `first`. */
  method Prioritize(views: seq<View>, agents: seq<Agent>, admit: Option<CandidateId>) returns (kept: seq<View>)
    ensures kept == Prioritized(views, agents, admit)
  {
    var included: set<string> := {};
    for i := 0 to |views|
      invariant forall g :: g in included <==> Included(views[..i], agents, g)
    {
      var g := GroupOf(agents, views[i]);
      IncludedGrows(views, agents, i);
      if HasPlan(views[i]) && g.Some? {
        included := included + {g.value};
      }
    }
    assert views[..|views|] == views;
    var eligible := [];
    ghost var passes := v => PassesOverage(views, agents, admit, v);
    for i := 0 to |views|
      invariant eligible == Filter(views[..i], passes)
    {
      var v := views[i];
      var g := GroupOf(agents, v);
      assert views[..i + 1][..i] == views[..i];
      if admit == Some(v.id) || !v.onOverage || !(g.Some? && g.value in included) {
        eligible := eligible + [v];
      }
    }
    var first := FillFirst(eligible, agents);
    kept := [];
    ghost var wins := v => PassesPriority(eligible, agents, admit, v);
    for i := 0 to |eligible|
      invariant kept == Filter(eligible[..i], wins)
    {
      var v := eligible[i];
      var a := Find(agents, v.id.agent);
      assert eligible[..i + 1][..i] == eligible[..i];
      if a.Some? && a.value.accountPriority.Some? {
        FirstIsUnique(eligible, agents, first, Group(a.value), a.value.accountPriority.value);
      }
      if || admit == Some(v.id) || a.None? || a.value.accountPriority.None?
         || (Group(a.value) in first && first[Group(a.value)] == a.value.accountPriority.value) {
        kept := kept + [v];
      }
    }
    assert eligible[..|eligible|] == eligible;
  }

  lemma IncludedGrows(views: seq<View>, agents: seq<Agent>, i: nat)
    requires i < |views|
    ensures forall g :: Included(views[..i + 1], agents, g) <==>
                          Included(views[..i], agents, g) || (HasPlan(views[i]) && GroupOf(agents, views[i]) == Some(g))
  {
    var a, b := views[..i], views[..i + 1];
    assert forall k :: 0 <= k < i ==> a[k] == b[k];
    assert b[i] == views[i];
  }

  lemma FirstIsUnique(views: seq<View>, agents: seq<Agent>, first: map<string, nat>, group: string, p: nat)
    requires FirstMap(first, views, agents, |agents|)
    ensures IsFirst(views, agents, group, p) <==> group in first && first[group] == p
  {
    assert agents[..|agents|] == agents && FirstAt(first, views, agents, |agents|, group);
    if IsFirst(views, agents, group, p) {
      var i :| 0 <= i < |agents| && Competes(views, agents[i], group, p);
      if group in first {
        var j :| 0 <= j < |agents| && Competes(views, agents[j], group, first[group]);
      }
    }
  }

  method FillFirst(views: seq<View>, agents: seq<Agent>) returns (first: map<string, nat>)
    ensures FirstMap(first, views, agents, |agents|)
  {
    first := map[];
    for n := 0 to |agents|
      invariant FirstMap(first, views, agents, n)
    {
      var a := agents[n];
      ghost var before := first;
      if a.accountPriority.Some? && exists i :: 0 <= i < |views| && views[i].id.agent == a.name {
        var g, p := Group(a), a.accountPriority.value;
        if g !in first || p < first[g] {
          first := first[g := p];
        }
        assert Competes(views, a, g, p);
      }
      FirstStep(before, first, views, agents, n);
    }
  }

  lemma FirstStep(before: map<string, nat>, after: map<string, nat>, views: seq<View>, agents: seq<Agent>, n: nat)
    requires n < |agents| && FirstMap(before, views, agents, n)
    requires var a := agents[n];
             if a.accountPriority.Some? && Present(views, a.name) then
               var g, p := Group(a), a.accountPriority.value;
               after == if g !in before || p < before[g] then before[g := p] else before
             else after == before
    ensures FirstMap(after, views, agents, n + 1)
  {
    var s, t := agents[..n], agents[..n + 1];
    assert t[n] == agents[n] && forall k :: 0 <= k < n ==> s[k] == t[k];
    var m := n + 1;
    forall g
      ensures FirstAt(after, views, agents, m, g)
    {
      assert FirstAt(before, views, agents, n, g);
      if g in after {
        if g in before && after[g] == before[g] {
          var i :| 0 <= i < n && Competes(views, s[i], g, before[g]);
          assert Competes(views, t[i], g, after[g]);
        } else {
          assert Competes(views, t[n], g, after[g]);
        }
      }
    }
  }
}
