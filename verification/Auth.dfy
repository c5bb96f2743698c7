/**
 `AuthTracker` of src/auth.rs: what is known about each agent's sign-in, and
 which access credential produced that knowledge.

 The class updates its maps in place; each method is tied to a function on the
 tracker's value, and the theorems quantify over every sequence of operations.
 */
module Auth {
  import opened Common

  datatype Availability = Authenticated | Unauthenticated(reason: string) | Unknown
  datatype Entry = Entry(availability: Availability, at: nat, generation: Option<string>)

  /** The tracker's value: evidence per agent, and the generation last read from disk. */
  datatype Tracker = Tracker(agents: map<string, Entry>, current: map<string, string>)

  const NEGATIVE_TTL := 900

  function Empty(): Tracker {
    Tracker(map[], map[])
  }

  /** Negative evidence decays. */
  function AvailabilityOf(t: Tracker, agent: string, now: nat): Availability {
    if agent !in t.agents then Unknown
    else
      var e := t.agents[agent];
      if e.availability.Unauthenticated? && now - e.at >= NEGATIVE_TTL then Unknown else e.availability
  }

  predicate Tied(t: Tracker, agent: string) {
    agent in t.agents && t.agents[agent].generation.Some?
  }

  predicate IsCurrent(t: Tracker, agent: string, generation: string) {
    agent in t.current && t.current[agent] == generation
  }

  /** One call on the tracker. */
  datatype Op =
    | Set(agent: string, availability: Availability, at: nat)
    | ForceSet(agent: string, availability: Availability, at: nat)
    | Observe(agent: string, generation: string)
    | Clear(agent: string)
    | SetTied(agent: string, availability: Availability, generation: string, at: nat)

  function Apply(t: Tracker, op: Op): Tracker {
    match op
    case Set(agent, availability, at) =>
      if availability.Unknown? || Tied(t, agent) then t
      else t.(agents := t.agents[agent := Entry(availability, at, None)])
    case ForceSet(agent, availability, at) =>
      t.(agents := t.agents[agent := Entry(availability, at, None)])
    case Observe(agent, generation) =>
      var stale := !IsCurrent(t, agent, generation)
                   && agent in t.agents && t.agents[agent].generation != Some(generation);
      Tracker(if stale then t.agents - {agent} else t.agents, t.current[agent := generation])
    case Clear(agent) =>
      Tracker(if Tied(t, agent) then t.agents - {agent} else t.agents, t.current - {agent})
    case SetTied(agent, availability, generation, at) =>
      if availability.Unknown? || !IsCurrent(t, agent, generation) then t
      else t.(agents := t.agents[agent := Entry(availability, at, Some(generation))])
  }

  function Run(t: Tracker, ops: seq<Op>): Tracker {
    if ops == [] then t else Apply(Run(t, ops[..|ops| - 1]), ops[|ops| - 1])
  }

  /** Evidence tied to a generation belongs to the one observed now. */
  ghost predicate Inv(t: Tracker) {
    forall a :: Tied(t, a) ==> IsCurrent(t, a, t.agents[a].generation.value)
  }

  lemma {:induction false} InvRun(t: Tracker, ops: seq<Op>)
    requires Inv(t)
    ensures Inv(Run(t, ops))
  {
    if ops != [] {
      InvRun(t, ops[..|ops| - 1]);
    }
  }

  // ---- The same knowledge, told from the history of calls ----

  /** The generation the last credential read left for `agent`. */
  function ObservedIn(ops: seq<Op>, agent: string): Option<string> {
    if ops == [] then None
    else
      var op := ops[|ops| - 1];
      if op.Observe? && op.agent == agent then Some(op.generation)
      else if op.Clear? && op.agent == agent then None
      else ObservedIn(ops[..|ops| - 1], agent)
  }

  /** A result that arrives for a generation other than the observed one. */
  predicate Late(ops: seq<Op>, op: Op) {
    op.SetTied? && ObservedIn(ops, op.agent) != Some(op.generation)
  }

  /** The evidence a call brings, if it brings any. */
  function Brings(op: Op): Option<Entry> {
    match op
    case Set(_, availability, at) => if availability.Unknown? then None else Some(Entry(availability, at, None))
    case ForceSet(_, availability, at) => Some(Entry(availability, at, None))
    case SetTied(_, availability, generation, at) =>
      if availability.Unknown? then None else Some(Entry(availability, at, Some(generation)))
    case _ => None
  }

  /** Call `op`, coming after the calls `before`, ends the reign of evidence for
      its agent; `tied` says whether that evidence names a generation. */
  predicate Ends(before: seq<Op>, op: Op, tied: bool) {
    match op
    case Set(_, _, _) => !tied && Brings(op).Some?
    case ForceSet(_, _, _) => true
    case Observe(agent, generation) => ObservedIn(before, agent) != Some(generation)
    case Clear(_) => tied
    case SetTied(_, _, _, _) => !Late(before, op) && Brings(op).Some?
  }

  /** Call `k` brought evidence for `agent` and no later call has ended it. */
  ghost predicate Reigns(ops: seq<Op>, agent: string, k: nat) {
    && k < |ops| && ops[k].agent == agent && Brings(ops[k]).Some? && !Late(ops[..k], ops[k])
    && forall j :: k < j < |ops| && ops[j].agent == agent ==> !Ends(ops[..j], ops[j], ops[k].SetTied?)
  }

  /** Call `k` brought the evidence in force: it reigns, and if it named no
      generation and was not forced, it found no tied evidence reigning. */
  ghost predicate InForce(ops: seq<Op>, agent: string, k: nat) {
    && Reigns(ops, agent, k)
    && (ops[k].Set? ==> forall j :: 0 <= j < k && ops[j].SetTied? ==> !Reigns(ops[..k], agent, j))
  }

  lemma ReignsInit(ops: seq<Op>, agent: string, k: nat)
    requires k < |ops| - 1
    ensures var init, op := ops[..|ops| - 1], ops[|ops| - 1];
            Reigns(ops, agent, k) <==> Reigns(init, agent, k) && !(op.agent == agent && Ends(init, op, ops[k].SetTied?))
  {
    var init := ops[..|ops| - 1];
    assert forall j :: 0 <= j <= |init| ==> init[..j] == ops[..j];
  }

  lemma InForceInit(ops: seq<Op>, agent: string, k: nat)
    requires k < |ops| - 1
    ensures var init, op := ops[..|ops| - 1], ops[|ops| - 1];
            InForce(ops, agent, k) <==>
              InForce(init, agent, k) && !(op.agent == agent && Ends(init, op, ops[k].SetTied?))
  {
    ReignsInit(ops, agent, k);
    assert ops[..|ops| - 1][..k] == ops[..k];
  }

  lemma ReignsBefore(ops: seq<Op>, agent: string, j: nat, k: nat)
    requires Reigns(ops, agent, j) && j < k <= |ops|
    ensures Reigns(ops[..k], agent, j)
  {
    assert forall i :: 0 <= i < k ==> ops[..k][..i] == ops[..i];
  }

  /** Two calls are never in force together. */
  lemma OneInForce(ops: seq<Op>, agent: string, j: nat, k: nat)
    requires InForce(ops, agent, j) && InForce(ops, agent, k)
    ensures j == k
  {
    if j < k {
      ReignsBefore(ops, agent, j, k);
    } else if k < j {
      OneInForce(ops, agent, k, j);
    }
  }

  /** The entry a tracker holds for `agent` is what the calls `ops` leave in force. */
  ghost predicate Explains(ops: seq<Op>, agent: string, entry: Option<Entry>) {
    && (forall k :: 0 <= k < |ops| && InForce(ops, agent, k) ==> entry == Brings(ops[k]))
    && (entry.Some? ==> exists k :: 0 <= k < |ops| && InForce(ops, agent, k))
  }

  predicate IsTied(entry: Option<Entry>) {
    entry.Some? && entry.value.generation.Some?
  }

  /** The call replaces the agent's entry `before` by what it brings. */
  predicate Joins(init: seq<Op>, op: Op, before: Option<Entry>) {
    Brings(op).Some? && !Late(init, op) && (op.Set? ==> !IsTied(before))
  }

  lemma LastInForce(ops: seq<Op>, agent: string, before: Option<Entry>)
    requires ops != [] && Explains(ops[..|ops| - 1], agent, before)
    ensures var init, op := ops[..|ops| - 1], ops[|ops| - 1];
            InForce(ops, agent, |init|) <==> op.agent == agent && Joins(init, op, before)
  {
    var init, op := ops[..|ops| - 1], ops[|ops| - 1];
    if op.Set? && IsTied(before) {
      var k :| 0 <= k < |init| && InForce(init, agent, k);
      assert ops[k].SetTied? && Reigns(ops[..|init|], agent, k);
    }
    forall j | 0 <= j < |init| && ops[j].SetTied? && Reigns(init, agent, j)
      ensures IsTied(before)
    {
      assert InForce(init, agent, j);
    }
  }

  lemma EarlierInForce(ops: seq<Op>, agent: string, before: Option<Entry>, k: nat)
    requires k < |ops| - 1 && Explains(ops[..|ops| - 1], agent, before)
    ensures var init, op := ops[..|ops| - 1], ops[|ops| - 1];
            InForce(ops, agent, k) <==>
              InForce(init, agent, k) && !(op.agent == agent && Ends(init, op, IsTied(before)))
  {
    InForceInit(ops, agent, k);
    assert InForce(ops[..|ops| - 1], agent, k) ==> before == Brings(ops[k]);
  }

  lemma ExplainsStep(ops: seq<Op>, agent: string, before: Option<Entry>, after: Option<Entry>)
    requires ops != [] && Explains(ops[..|ops| - 1], agent, before)
    requires var init, op := ops[..|ops| - 1], ops[|ops| - 1];
             after == if op.agent == agent && Joins(init, op, before) then Brings(op)
                      else if op.agent == agent && Ends(init, op, IsTied(before)) then None
                      else before
    ensures Explains(ops, agent, after)
  {
    var init, op := ops[..|ops| - 1], ops[|ops| - 1];
    LastInForce(ops, agent, before);
    forall k | 0 <= k < |ops| && InForce(ops, agent, k)
      ensures after == Brings(ops[k])
    {
      if k < |init| {
        EarlierInForce(ops, agent, before, k);
      }
    }
    if after.Some? && !InForce(ops, agent, |init|) {
      var k :| 0 <= k < |init| && InForce(init, agent, k);
      EarlierInForce(ops, agent, before, k);
    }
  }

  /** After any calls the tracker holds each agent's last observed generation,
      and exactly the evidence of the one call that is in force. */
  lemma {:induction false} TrackerIsHistory(ops: seq<Op>, agent: string)
    ensures MapGet(Run(Empty(), ops).current, agent) == ObservedIn(ops, agent)
    ensures Explains(ops, agent, MapGet(Run(Empty(), ops).agents, agent))
  {
    if ops != [] {
      var init := ops[..|ops| - 1];
      TrackerIsHistory(init, agent);
      InvRun(Empty(), init);
      var t := Run(Empty(), init);
      assert Tied(t, agent) ==> IsCurrent(t, agent, t.agents[agent].generation.value);
      ExplainsStep(ops, agent, MapGet(t.agents, agent), MapGet(Run(Empty(), ops).agents, agent));
    }
  }

  /** What the tracker answers about an agent, told from the calls: the evidence in
      force, an unauthenticated verdict with its own reason but only until it is
      900 seconds old; unknown when no call is in force. */
  lemma ReadingIsHistory(ops: seq<Op>, agent: string, now: nat)
    ensures var answer := AvailabilityOf(Run(Empty(), ops), agent, now);
            && (forall k :: 0 <= k < |ops| && InForce(ops, agent, k) ==>
                  var said := ops[k].availability;
                  answer == if said.Unauthenticated? && now >= ops[k].at + 900 then Unknown else said)
            && ((forall k :: 0 <= k < |ops| ==> !InForce(ops, agent, k)) ==> answer.Unknown?)
  {
    TrackerIsHistory(ops, agent);
  }

  function Reading(ops: seq<Op>, agent: string, now: nat): Availability {
    AvailabilityOf(Run(Empty(), ops), agent, now)
  }

  /** The generation the evidence in force names, if there is any and it names one. */
  function Basis(ops: seq<Op>, agent: string): Option<string> {
    var t := Run(Empty(), ops);
    if agent in t.agents then t.agents[agent].generation else None
  }

  /** What one more call does to the answers about its agent: a fresh verdict is
      answered at once where it counts, a changed credential makes the agent
      unknown, a vanished one only if the evidence named it. */
  lemma StepReading(ops: seq<Op>, op: Op, now: nat)
    ensures var before, after := Reading(ops, op.agent, now), Reading(ops + [op], op.agent, now);
            match op
            case ForceSet(_, said, at) => now < at + 900 ==> after == said
            case Set(_, said, at) =>
              if said.Unknown? || Basis(ops, op.agent).Some? then after == before
              else now < at + 900 ==> after == said
            case Observe(_, generation) =>
              if ObservedIn(ops, op.agent) == Some(generation) then after == before else after.Unknown?
            case Clear(_) => if Basis(ops, op.agent).Some? then after.Unknown? else after == before
            case SetTied(_, said, generation, at) =>
              if said.Unknown? || ObservedIn(ops, op.agent) != Some(generation) then after == before
              else now < at + 900 ==> after == said && Basis(ops + [op], op.agent) == Some(generation)
    ensures forall other :: other != op.agent ==> Reading(ops + [op], other, now) == Reading(ops, other, now)
  {
    assert (ops + [op])[..|ops|] == ops;
    TrackerIsHistory(ops, op.agent);
    InvRun(Empty(), ops);
    var t := Run(Empty(), ops);
    assert Tied(t, op.agent) ==> IsCurrent(t, op.agent, t.agents[op.agent].generation.value);
  }

  /** In every reachable tracker, tied evidence is about the observed generation. */
  lemma TiedEvidenceIsCurrent(ops: seq<Op>, agent: string)
    requires Tied(Run(Empty(), ops), agent)
    ensures Run(Empty(), ops).agents[agent].generation == ObservedIn(ops, agent)
  {
    InvRun(Empty(), ops);
    TrackerIsHistory(ops, agent);
  }

  /** The calls without those that arrived late. */
  function Timely(ops: seq<Op>): seq<Op> {
    if ops == [] then []
    else
      var init, op := ops[..|ops| - 1], ops[|ops| - 1];
      if Late(init, op) then Timely(init) else Timely(init) + [op]
  }

  /** Late results never matter: erasing all of them, wherever they arrived,
      leaves the same tracker. */
  lemma {:induction false} LateResultsAreInert(ops: seq<Op>)
    ensures Run(Empty(), Timely(ops)) == Run(Empty(), ops)
    ensures forall agent, now: nat ::
              AvailabilityOf(Run(Empty(), Timely(ops)), agent, now) == AvailabilityOf(Run(Empty(), ops), agent, now)
  {
    if ops != [] {
      var init, op := ops[..|ops| - 1], ops[|ops| - 1];
      LateResultsAreInert(init);
      if Late(init, op) {
        TrackerIsHistory(init, op.agent);
      } else {
        var kept := Timely(init) + [op];
        assert kept[..|kept| - 1] == Timely(init);
      }
    }
  }

  /** A call that says nothing new about an agent standing on evidence tied to `generation`. */
  predicate Harmless(op: Op, generation: string) {
    || op.Set?
    || (op.SetTied? && (op.generation != generation || op.availability.Unknown?))
    || (op.Observe? && op.generation == generation)
  }

  /** Generation-less evidence, late or empty results and repeated reads of the
      same credential cannot displace tied evidence, however many arrive. */
  lemma {:induction false} TiedEvidenceStands(t: Tracker, ops: seq<Op>, agent: string)
    requires Inv(t) && Tied(t, agent)
    requires forall k :: 0 <= k < |ops| && ops[k].agent == agent ==> Harmless(ops[k], t.agents[agent].generation.value)
    ensures Tied(Run(t, ops), agent) && Run(t, ops).agents[agent] == t.agents[agent]
    ensures IsCurrent(Run(t, ops), agent, t.agents[agent].generation.value)
  {
    if ops != [] {
      TiedEvidenceStands(t, ops[..|ops| - 1], agent);
    }
  }

  class AuthTracker {
    var agents: map<string, Entry>
    var currentGenerations: map<string, string>

    function Value(): Tracker
      reads this
    {
      Tracker(agents, currentGenerations)
    }

    ghost predicate Valid()
      reads this
    {
      Inv(Value())
    }

    constructor ()
      ensures Valid() && Value() == Empty()
    {
      agents, currentGenerations := map[], map[];
    }

    /** The reader: negative evidence counts for 900 seconds. */
    function Availability(agent: string, now: nat): (r: Availability)
      reads this
      ensures r == AvailabilityOf(Value(), agent, now)
    {
      if agent !in agents then Unknown
      else
        match agents[agent].availability
        case Unauthenticated(_) =>
          if now - agents[agent].at >= NEGATIVE_TTL then Unknown else agents[agent].availability
        case other => other
    }

    method SetEvidence(agent: string, availability: Availability, now: nat)
      requires Valid()
      modifies this
      ensures Valid() && Value() == Apply(old(Value()), Set(agent, availability, now))
    {
      if availability == Unknown {
        return;
      }
      if agent in agents && agents[agent].generation.Some? {
        return;
      }
      Force(agent, availability, now);
    }

    method Force(agent: string, availability: Availability, now: nat)
      requires Valid()
      modifies this
      ensures Valid() && Value() == Apply(old(Value()), ForceSet(agent, availability, now))
    {
      ghost var before := Value();
      agents := agents[agent := Entry(availability, now, None)];
      assert forall a :: Tied(Value(), a) ==> Tied(before, a);
    }

    method ObserveGeneration(agent: string, generation: string)
      requires Valid()
      modifies this
      ensures Valid() && Value() == Apply(old(Value()), Observe(agent, generation))
    {
      ghost var before := Value();
      var changed := agent !in currentGenerations || currentGenerations[agent] != generation;
      currentGenerations := currentGenerations[agent := generation];
      if changed && agent in agents && agents[agent].generation != Some(generation) {
        agents := agents - {agent};
      }
      assert forall a :: Tied(Value(), a) ==> Tied(before, a);
    }

    method ClearCurrentGeneration(agent: string)
      requires Valid()
      modifies this
      ensures Valid() && Value() == Apply(old(Value()), Clear(agent))
    {
      ghost var before := Value();
      currentGenerations := currentGenerations - {agent};
      if agent in agents && agents[agent].generation.Some? {
        agents := agents - {agent};
      }
      assert forall a :: Tied(Value(), a) ==> Tied(before, a);
    }

    method SetWithGeneration(agent: string, availability: Availability, generation: string, now: nat)
      requires Valid()
      modifies this
      ensures Valid() && Value() == Apply(old(Value()), SetTied(agent, availability, generation, now))
    {
      if availability == Unknown {
        return;
      }
      if agent !in currentGenerations || currentGenerations[agent] != generation {
        return;
      }
      ghost var before := Value();
      agents := agents[agent := Entry(availability, now, Some(generation))];
      assert forall a :: a != agent && Tied(Value(), a) ==> Tied(before, a);
    }

    /** A live credential read that came with a verdict: the agent now stands on
        exactly that generation's evidence. */
    method NoteFromUsageWithGeneration(agent: string, availability: Availability, generation: string, now: nat)
      requires Valid() && !availability.Unknown?
      modifies this
      ensures Valid()
      ensures Value() == Apply(Apply(old(Value()), Observe(agent, generation)),
                               SetTied(agent, availability, generation, now))
      ensures MapGet(agents, agent) == Some(Entry(availability, now, Some(generation)))
      ensures MapGet(currentGenerations, agent) == Some(generation)
    {
      ObserveGeneration(agent, generation);
      SetWithGeneration(agent, availability, generation, now);
    }
  }
}
