/**
 `HeadroomTracker` of src/headroom.rs. The fields hold trimmed deques and
 single entries; the ghost logs hold everything that ever happened. `Valid`
 ties the two, and each query is proved to answer from the logs.
 */
module Headroom {
  import opened Common
  import opened HeadroomSpec

  datatype AgentWindow = AgentWindow(prompts: seq<nat>, exhaustedAt: Option<nat>)
  datatype CandidateFailures = CandidateFailures(failures: seq<nat>, quarantinedUntil: Option<nat>)

  const DEFAULT_BUDGET := 400

  // ---- How compressed entries represent their histories ----

  /** Trimmed prompts and the last exhaustion stand for the full histories. */
  predicate WindowOk(w: AgentWindow, prompts: seq<nat>, exhausted: seq<nat>, window: nat, clock: nat) {
    && Sorted(prompts) && Sorted(exhausted)
    && (forall i :: 0 <= i < |prompts| ==> prompts[i] <= clock)
    && (forall i :: 0 <= i < |exhausted| ==> exhausted[i] <= clock)
    && TrimmedFrom(w.prompts, prompts, clock, window)
    && (if w.exhaustedAt.Some? then exhausted != [] && exhausted[|exhausted| - 1] == w.exhaustedAt.value
        else forall i :: 0 <= i < |exhausted| ==> !Recent(exhausted[i], clock, window))
  }

  /** The stored cordon is the longest of all calls while any is live. */
  ghost predicate CordonOk(entry: Option<Call>, calls: seq<Call>, clock: nat) {
    if AnyLive(calls, clock) then entry.Some? && exists k :: FirstMax(calls, k) && entry.value == calls[k]
    else entry.Some? ==> entry.value.until <= clock
  }

  /** A reactive cordon is never dropped: the entry is the longest call ever made. */
  ghost predicate KeptOk(entry: Option<UsageCordon>, calls: seq<Call>) {
    if calls == [] then entry.None?
    else entry.Some? && exists k :: FirstMax(calls, k)
                                    && entry.value == UsageCordon(calls[k].reason, calls[k].until, false)
  }

  /** The stored strikes and deadline stand for the failures since the last clear. */
  ghost predicate StrikesOk(c: CandidateFailures, log: seq<Strike>, p: Policy, clock: nat) {
    var f := SinceClear(log, p);
    && Sorted(f) && (forall i :: 0 <= i < |f| ==> f[i] <= clock)
    && TrimmedFrom(c.failures, f, clock, p.window)
    && (if c.quarantinedUntil.Some?
        then exists k :: 0 <= k < |f| && LastTrip(f, k, p) && c.quarantinedUntil.value == f[k] + p.coolOff
        else forall i :: 0 <= i < |f| ==> !Trips(f, i, p))
  }

  ghost predicate LastTrip(f: seq<nat>, k: nat, p: Policy) {
    k < |f| && Trips(f, k, p) && forall j :: k < j < |f| ==> !Trips(f, j, p)
  }

  function WindowOf(agents: map<string, AgentWindow>, agent: string): AgentWindow {
    if agent in agents then agents[agent] else AgentWindow([], None)
  }

  function StrikesOf(candidates: map<CandidateId, CandidateFailures>, id: CandidateId): CandidateFailures {
    if id in candidates then candidates[id] else CandidateFailures([], None)
  }

  predicate WindowAt(agents: map<string, AgentWindow>, prompts: map<string, seq<nat>>, exhausted: map<string, seq<nat>>,
                     window: nat, clock: nat, a: string)
  {
    WindowOk(WindowOf(agents, a), History(prompts, a), History(exhausted, a), window, clock)
  }

  ghost predicate WindowsOk(agents: map<string, AgentWindow>, prompts: map<string, seq<nat>>,
                            exhausted: map<string, seq<nat>>, window: nat, clock: nat)
  {
    forall a :: WindowAt(agents, prompts, exhausted, window, clock, a)
  }

  ghost predicate CordonEntryAt(cordons: map<string, Call>, calls: map<string, seq<Call>>, clock: nat, a: string) {
    CordonOk(MapGet(cordons, a), History(calls, a), clock)
  }

  ghost predicate CordonsOk(cordons: map<string, Call>, calls: map<string, seq<Call>>, clock: nat) {
    forall a :: CordonEntryAt(cordons, calls, clock, a)
  }

  ghost predicate StrikesAt(candidates: map<CandidateId, CandidateFailures>, log: map<CandidateId, seq<Strike>>,
                            p: Policy, clock: nat, id: CandidateId)
  {
    StrikesOk(StrikesOf(candidates, id), History(log, id), p, clock)
  }

  ghost predicate QuarantineOk(candidates: map<CandidateId, CandidateFailures>, log: map<CandidateId, seq<Strike>>,
                               p: Policy, clock: nat)
  {
    forall id :: StrikesAt(candidates, log, p, clock, id)
  }

  ghost predicate KeptAt<K>(kept: map<K, UsageCordon>, calls: map<K, seq<Call>>, k: K) {
    KeptOk(MapGet(kept, k), History(calls, k))
  }

  ghost predicate ReactiveOk<K(!new)>(kept: map<K, UsageCordon>, calls: map<K, seq<Call>>) {
    forall k :: KeptAt(kept, calls, k)
  }

  ghost predicate PolledAt(stored: map<CandidateId, UsageCordon>, polls: seq<Poll>, wall: nat, id: CandidateId) {
    LiveAt(MapGet(stored, id), wall) == LiveAt(LatestPolled(polls, id), wall)
  }

  ghost predicate PolledOk(stored: map<CandidateId, UsageCordon>, polls: seq<Poll>, wall: nat) {
    forall id :: PolledAt(stored, polls, wall, id)
  }

  // ---- One event updates every table ----

  lemma WindowsFrame(agents: map<string, AgentWindow>, prompts: map<string, seq<nat>>, exhausted: map<string, seq<nat>>,
                     agents': map<string, AgentWindow>, prompts': map<string, seq<nat>>,
                     exhausted': map<string, seq<nat>>,
                     window: nat, now: nat, agent: string)
    requires WindowsOk(agents, prompts, exhausted, window, now)
    requires WindowAt(agents', prompts', exhausted', window, now, agent)
    requires forall a :: a != agent ==> WindowOf(agents', a) == WindowOf(agents, a)
    requires forall a :: a != agent ==> History(prompts', a) == History(prompts, a)
    requires forall a :: a != agent ==> History(exhausted', a) == History(exhausted, a)
    ensures WindowsOk(agents', prompts', exhausted', window, now)
  {
    forall a
      ensures WindowAt(agents', prompts', exhausted', window, now, a)
    {
      if a != agent {
        assert WindowAt(agents, prompts, exhausted, window, now, a);
        assert WindowOf(agents', a) == WindowOf(agents, a);
      }
    }
  }

  /** One agent's window and histories change, the others stand. */
  lemma WindowsUpdate(agents: map<string, AgentWindow>, prompts: map<string, seq<nat>>,
                      exhausted: map<string, seq<nat>>,
                      window: nat, now: nat, agent: string, w: AgentWindow, p: seq<nat>, e: seq<nat>)
    requires WindowsOk(agents, prompts, exhausted, window, now) && WindowOk(w, p, e, window, now)
    ensures e == History(exhausted, agent) ==>
              WindowsOk(agents[agent := w], prompts[agent := p], exhausted, window, now)
    ensures p == History(prompts, agent) ==> WindowsOk(agents[agent := w], prompts, exhausted[agent := e], window, now)
    ensures p == History(prompts, agent) && e == History(exhausted, agent) ==>
              WindowsOk(agents[agent := w], prompts, exhausted, window, now)
  {
    if e == History(exhausted, agent) {
      WindowsFrame(agents, prompts, exhausted, agents[agent := w], prompts[agent := p], exhausted, window, now, agent);
    }
    if p == History(prompts, agent) {
      WindowsFrame(agents, prompts, exhausted, agents[agent := w], prompts, exhausted[agent := e], window, now, agent);
    }
    if p == History(prompts, agent) && e == History(exhausted, agent) {
      WindowsFrame(agents, prompts, exhausted, agents[agent := w], prompts, exhausted, window, now, agent);
    }
  }

  /** A prompt is recorded: push it onto the agent's deque. */
  lemma PromptRecorded(agents: map<string, AgentWindow>, prompts: map<string, seq<nat>>,
                       exhausted: map<string, seq<nat>>,
                       window: nat, now: nat, agent: string)
    requires WindowsOk(agents, prompts, exhausted, window, now)
    ensures var w := WindowOf(agents, agent);
            WindowsOk(agents[agent := w.(prompts := w.prompts + [now])],
                      prompts[agent := History(prompts, agent) + [now]], exhausted, window, now)
  {
    var w, log := WindowOf(agents, agent), History(prompts, agent);
    assert WindowAt(agents, prompts, exhausted, window, now, agent);
    WindowPrompt(w, log, History(exhausted, agent), window, now);
    WindowsUpdate(agents, prompts, exhausted, window, now, agent, w.(prompts := w.prompts + [now]),
                  log + [now], History(exhausted, agent));
  }

  lemma ExhaustionRecorded(agents: map<string, AgentWindow>, prompts: map<string, seq<nat>>,
                           exhausted: map<string, seq<nat>>,
                           window: nat, now: nat, agent: string)
    requires WindowsOk(agents, prompts, exhausted, window, now)
    ensures WindowsOk(agents[agent := WindowOf(agents, agent).(exhaustedAt := Some(now))], prompts,
                      exhausted[agent := History(exhausted, agent) + [now]], window, now)
  {
    var w, log := WindowOf(agents, agent), History(exhausted, agent);
    assert WindowAt(agents, prompts, exhausted, window, now, agent);
    WindowExhaust(w, History(prompts, agent), log, window, now);
    WindowsUpdate(agents, prompts, exhausted, window, now, agent, w.(exhaustedAt := Some(now)),
                  History(prompts, agent), log + [now]);
  }

  /** The window a query leaves behind: trimmed, and without a stale exhaustion. */
  function Slid(w: AgentWindow, window: nat, now: nat): AgentWindow {
    AgentWindow(Trimmed(w.prompts, now, window),
                if w.exhaustedAt.Some? && Recent(w.exhaustedAt.value, now, window) then w.exhaustedAt else None)
  }

  /** A query slides the agent's window; what it reads off is the full history's answer. */
  lemma WindowRead(agents: map<string, AgentWindow>, prompts: map<string, seq<nat>>, exhausted: map<string, seq<nat>>,
                   window: nat, now: nat, agent: string)
    requires WindowsOk(agents, prompts, exhausted, window, now)
    ensures var w := Slid(WindowOf(agents, agent), window, now);
            && |w.prompts| == CountRecent(History(prompts, agent), now, window)
            && (w.exhaustedAt.Some? <==> AnyRecent(History(exhausted, agent), now, window))
            && WindowsOk(agents[agent := w], prompts, exhausted, window, now)
  {
    assert WindowAt(agents, prompts, exhausted, window, now, agent);
    WindowSlide(WindowOf(agents, agent), History(prompts, agent), History(exhausted, agent), window, now);
    WindowsUpdate(agents, prompts, exhausted, window, now, agent, Slid(WindowOf(agents, agent), window, now),
                  History(prompts, agent), History(exhausted, agent));
  }

  /** A cordon call: the longer of the stored entry and the new one stays. */
  lemma CordonCalled(cordons: map<string, Call>, calls: map<string, seq<Call>>, now: nat, agent: string, call: Call)
    requires CordonsOk(cordons, calls, now) && now <= call.until
    ensures CordonsOk(if agent !in cordons || cordons[agent].until < call.until
                      then cordons[agent := call] else cordons,
                      calls[agent := History(calls, agent) + [call]], now)
  {
    var cordons' := if agent !in cordons || cordons[agent].until < call.until then cordons[agent := call] else cordons;
    var calls' := calls[agent := History(calls, agent) + [call]];
    forall a
      ensures CordonEntryAt(cordons', calls', now, a)
    {
      assert CordonEntryAt(cordons, calls, now, a);
      if a == agent {
        CordonAppend(MapGet(cordons, agent), History(calls, agent), call, now, now);
      }
    }
  }

  /** A query reads the entry, or drops it once it has expired. */
  lemma CordonRead(cordons: map<string, Call>, calls: map<string, seq<Call>>, now: nat, agent: string)
    requires CordonsOk(cordons, calls, now)
    ensures if agent in cordons && now < cordons[agent].until
            then CordonAnswer(History(calls, agent), now, Some((cordons[agent].until - now, cordons[agent].reason)))
            else CordonAnswer(History(calls, agent), now, None) && CordonsOk(cordons - {agent}, calls, now)
  {
    assert CordonEntryAt(cordons, calls, now, agent);
    CordonAdvance(MapGet(cordons, agent), History(calls, agent), now, now);
    if !(agent in cordons && now < cordons[agent].until) {
      forall a
        ensures CordonEntryAt(cordons - {agent}, calls, now, a)
      {
        assert CordonEntryAt(cordons, calls, now, a);
      }
    }
  }

  /** What a failure leaves in the candidate's entry. */
  function Struck(c: CandidateFailures, p: Policy, now: nat): CandidateFailures {
    var kept := Trimmed(c.failures + [now], now, p.window);
    CandidateFailures(kept, if |kept| >= p.threshold then Some(now + p.coolOff) else c.quarantinedUntil)
  }

  /** What a check leaves there. */
  function Checked(c: CandidateFailures, now: nat): CandidateFailures {
    if c.quarantinedUntil.Some? && c.quarantinedUntil.value <= now then CandidateFailures([], None) else c
  }

  /** One candidate's entry and history change, the others stand. */
  lemma QuarantineUpdate(candidates: map<CandidateId, CandidateFailures>, log: map<CandidateId, seq<Strike>>,
                         p: Policy, now: nat, id: CandidateId, c': CandidateFailures, l': seq<Strike>)
    requires QuarantineOk(candidates, log, p, now) && StrikesOk(c', l', p, now)
    ensures QuarantineOk(candidates[id := c'], log[id := l'], p, now)
    ensures c' == StrikesOf(candidates, id) ==> QuarantineOk(candidates, log[id := l'], p, now)
  {
    var candidates', log' := candidates[id := c'], log[id := l'];
    forall c
      ensures StrikesAt(candidates', log', p, now, c)
    {
      assert c != id ==> StrikesAt(candidates, log, p, now, c);
      assert StrikesOf(candidates', c) == if c == id then c' else StrikesOf(candidates, c);
      assert History(log', c) == if c == id then l' else History(log, c);
    }
    if c' == StrikesOf(candidates, id) {
      forall c
        ensures StrikesAt(candidates, log', p, now, c)
      {
        assert StrikesAt(candidates', log', p, now, c);
      }
    }
  }

  lemma FailureRecorded(candidates: map<CandidateId, CandidateFailures>, log: map<CandidateId, seq<Strike>>,
                        p: Policy, now: nat, id: CandidateId)
    requires QuarantineOk(candidates, log, p, now)
    ensures QuarantineOk(candidates[id := Struck(StrikesOf(candidates, id), p, now)],
                         log[id := History(log, id) + [Failure(now)]], p, now)
  {
    var c, l := StrikesOf(candidates, id), History(log, id);
    assert StrikesAt(candidates, log, p, now, id);
    StrikeAppend(c, l, p, now);
    QuarantineUpdate(candidates, log, p, now, id, Struck(c, p, now), l + [Failure(now)]);
  }

  lemma StrikesChecked(candidates: map<CandidateId, CandidateFailures>, log: map<CandidateId, seq<Strike>>,
                       p: Policy, now: nat, id: CandidateId)
    requires QuarantineOk(candidates, log, p, now)
    ensures var c := StrikesOf(candidates, id);
            && (Quarantined(History(log, id), now, p) <==> c.quarantinedUntil.Some? && now < c.quarantinedUntil.value)
            && QuarantineOk(if Checked(c, now) == c then candidates else candidates[id := Checked(c, now)],
                            log[id := History(log, id) + [Check(now)]], p, now)
  {
    var c, l := StrikesOf(candidates, id), History(log, id);
    assert StrikesAt(candidates, log, p, now, id);
    StrikeRead(c, l, p, now);
    StrikeCheck(c, l, p, now);
    QuarantineUpdate(candidates, log, p, now, id, Checked(c, now), l + [Check(now)]);
  }

  /** A reactive cordon call under one key: the longer one stays. */
  lemma ReactiveUpdate<K(!new)>(kept: map<K, UsageCordon>, calls: map<K, seq<Call>>, key: K, call: Call)
    requires ReactiveOk(kept, calls)
    ensures ReactiveOk(if key in kept && kept[key].resetsAt >= call.until then kept
                       else kept[key := UsageCordon(call.reason, call.until, false)],
                       calls[key := History(calls, key) + [call]])
  {
    assert KeptAt(kept, calls, key);
    KeptAppend(MapGet(kept, key), History(calls, key), call);
    var kept' := if key in kept && kept[key].resetsAt >= call.until then kept
                 else kept[key := UsageCordon(call.reason, call.until, false)];
    var calls' := calls[key := History(calls, key) + [call]];
    forall k
      ensures KeptAt(kept', calls', k)
    {
      assert KeptAt(kept, calls, k);
    }
  }

  /** Time passes: what the entries stand for does not change. */
  lemma Advance(agents: map<string, AgentWindow>, prompts: map<string, seq<nat>>,
                exhausted: map<string, seq<nat>>, window: nat,
                cordons: map<string, Call>, calls: map<string, seq<Call>>,
                candidates: map<CandidateId, CandidateFailures>, log: map<CandidateId, seq<Strike>>, p: Policy,
                clock: nat, now: nat)
    requires clock <= now
    requires WindowsOk(agents, prompts, exhausted, window, clock)
    requires CordonsOk(cordons, calls, clock)
    requires QuarantineOk(candidates, log, p, clock)
    ensures WindowsOk(agents, prompts, exhausted, window, now)
    ensures CordonsOk(cordons, calls, now)
    ensures QuarantineOk(candidates, log, p, now)
  {
    forall a
      ensures WindowAt(agents, prompts, exhausted, window, now, a)
    {
      assert WindowAt(agents, prompts, exhausted, window, clock, a);
      WindowAdvance(WindowOf(agents, a), History(prompts, a), History(exhausted, a), window, clock, now);
    }
    forall a
      ensures CordonEntryAt(cordons, calls, now, a)
    {
      assert CordonEntryAt(cordons, calls, clock, a);
      CordonAdvance(MapGet(cordons, a), History(calls, a), clock, now);
    }
    forall id
      ensures StrikesAt(candidates, log, p, now, id)
    {
      assert StrikesAt(candidates, log, p, clock, id);
      StrikesAdvance(StrikesOf(candidates, id), History(log, id), p, clock, now);
    }
  }

  // ---- Single-entry steps ----

  /** A new call against a kept cordon: the longer one stays. */
  lemma CordonAppend(entry: Option<Call>, calls: seq<Call>, call: Call, clock: nat, now: nat)
    requires CordonOk(entry, calls, clock) && clock <= now <= call.until
    ensures CordonOk(Some(if entry.None? || entry.value.until < call.until then call else entry.value),
                     calls + [call], now)
  {
    var after := calls + [call];
    if AnyLive(calls, clock) {
      var k :| FirstMax(calls, k) && entry.value == calls[k];
      if calls[k].until < call.until {
        assert FirstMax(after, |calls|);
      } else {
        assert FirstMax(after, k);
      }
    } else {
      if call.until > now {
        assert after[|calls|] == call;
        assert FirstMax(after, |calls|);
      }
      if AnyLive(after, now) {
        var i :| 0 <= i < |after| && now < after[i].until;
        assert i == |calls|;
      }
    }
  }

  lemma CordonAdvance(entry: Option<Call>, calls: seq<Call>, clock: nat, now: nat)
    requires CordonOk(entry, calls, clock) && clock <= now
    ensures CordonOk(entry, calls, now)
    ensures entry.Some? && entry.value.until <= now ==> CordonOk(None, calls, now)
    ensures AnyLive(calls, now) <==> entry.Some? && now < entry.value.until
  {
    if AnyLive(calls, now) {
      var i :| 0 <= i < |calls| && now < calls[i].until;
      assert clock < calls[i].until;
    } else if AnyLive(calls, clock) {
      var k :| FirstMax(calls, k) && entry.value == calls[k];
    }
  }

  lemma KeptAppend(entry: Option<UsageCordon>, calls: seq<Call>, call: Call)
    requires KeptOk(entry, calls)
    ensures KeptOk(if entry.Some? && entry.value.resetsAt >= call.until then entry
                   else Some(UsageCordon(call.reason, call.until, false)), calls + [call])
  {
    var after := calls + [call];
    if calls == [] {
      assert FirstMax(after, 0);
    } else {
      var k :| FirstMax(calls, k) && entry.value == UsageCordon(calls[k].reason, calls[k].until, false);
      if calls[k].until >= call.until {
        assert FirstMax(after, k);
      } else {
        assert FirstMax(after, |calls|);
      }
    }
  }

  lemma KeptLive(entry: Option<UsageCordon>, calls: seq<Call>, now: nat)
    requires KeptOk(entry, calls)
    ensures LiveAt(entry, now).Some? <==> AnyLive(calls, now)
    ensures entry.Some? ==> !entry.value.soft
                            && exists k :: FirstMax(calls, k)
                                           && entry.value == UsageCordon(calls[k].reason, calls[k].until, false)
  {
    if calls != [] {
      var k :| FirstMax(calls, k) && entry.value == UsageCordon(calls[k].reason, calls[k].until, false);
    }
  }

  lemma WindowPrompt(w: AgentWindow, prompts: seq<nat>, exhausted: seq<nat>, window: nat, now: nat)
    requires WindowOk(w, prompts, exhausted, window, now)
    ensures WindowOk(w.(prompts := w.prompts + [now]), prompts + [now], exhausted, window, now)
  {
    TrimAppend(w.prompts, prompts, now, now, window);
    assert Sorted(prompts + [now]);
  }

  lemma WindowExhaust(w: AgentWindow, prompts: seq<nat>, exhausted: seq<nat>, window: nat, now: nat)
    requires WindowOk(w, prompts, exhausted, window, now)
    ensures WindowOk(w.(exhaustedAt := Some(now)), prompts, exhausted + [now], window, now)
  {
    assert Sorted(exhausted + [now]);
  }

  lemma WindowSlide(w: AgentWindow, prompts: seq<nat>, exhausted: seq<nat>, window: nat, now: nat)
    requires WindowOk(w, prompts, exhausted, window, now)
    ensures WindowOk(Slid(w, window, now), prompts, exhausted, window, now)
    ensures |Slid(w, window, now).prompts| == CountRecent(prompts, now, window)
    ensures Slid(w, window, now).exhaustedAt.Some? <==> AnyRecent(exhausted, now, window)
  {
    TrimmedLength(w.prompts, prompts, now, window);
    if w.exhaustedAt.Some? {
      assert forall i :: 0 <= i < |exhausted| ==> exhausted[i] <= exhausted[|exhausted| - 1];
    }
  }

  lemma WindowAdvance(w: AgentWindow, prompts: seq<nat>, exhausted: seq<nat>, window: nat, clock: nat, now: nat)
    requires WindowOk(w, prompts, exhausted, window, clock) && clock <= now
    ensures WindowOk(w, prompts, exhausted, window, now)
  {
  }

  lemma StrikesAdvance(c: CandidateFailures, log: seq<Strike>, p: Policy, clock: nat, now: nat)
    requires StrikesOk(c, log, p, clock) && clock <= now
    ensures StrikesOk(c, log, p, now)
  {
  }

  /** The newest failure trips exactly when the trimmed strikes reach the threshold. */
  lemma StrikeTrips(c: CandidateFailures, f: seq<nat>, p: Policy, at: nat)
    requires Sorted(f) && (forall i :: 0 <= i < |f| ==> f[i] <= at) && TrimmedFrom(c.failures, f, at, p.window)
    ensures Sorted(f + [at]) && TrimmedFrom(Struck(c, p, at).failures, f + [at], at, p.window)
    ensures Trips(f + [at], |f|, p) <==> |Struck(c, p, at).failures| >= p.threshold
  {
    assert Sorted(f + [at]);
    TrimAppend(c.failures, f, at, at, p.window);
    TrimmedLength(c.failures + [at], f + [at], at, p.window);
    assert (f + [at])[..|f| + 1] == f + [at];
  }

  lemma LastTripAppend(f: seq<nat>, at: nat, k: int, p: Policy)
    requires !Trips(f + [at], |f|, p)
    ensures 0 <= k < |f| && LastTrip(f, k, p) ==> LastTrip(f + [at], k, p)
    ensures (forall i :: 0 <= i < |f| ==> !Trips(f, i, p)) ==> forall i :: 0 <= i <= |f| ==> !Trips(f + [at], i, p)
  {
    forall i | 0 <= i < |f|
      ensures Trips(f + [at], i, p) == Trips(f, i, p)
    {
      TripsStable(f, at, i, p);
    }
  }

  /** A recorded failure, trimmed and judged against the threshold. */
  lemma StrikeAppend(c: CandidateFailures, log: seq<Strike>, p: Policy, at: nat)
    requires StrikesOk(c, log, p, at)
    ensures StrikesOk(Struck(c, p, at), log + [Failure(at)], p, at)
  {
    var f := SinceClear(log, p);
    assert (log + [Failure(at)])[..|log|] == log;
    assert SinceClear(log + [Failure(at)], p) == f + [at];
    StrikeTrips(c, f, p, at);
    if Trips(f + [at], |f|, p) {
      assert LastTrip(f + [at], |f|, p);
    } else if c.quarantinedUntil.Some? {
      var k :| 0 <= k < |f| && LastTrip(f, k, p) && c.quarantinedUntil.value == f[k] + p.coolOff;
      LastTripAppend(f, at, k, p);
    } else {
      LastTripAppend(f, at, -1, p);
    }
  }

  /** The stored deadline answers for the whole strike history. */
  lemma StrikeRead(c: CandidateFailures, log: seq<Strike>, p: Policy, now: nat)
    requires StrikesOk(c, log, p, now)
    ensures Quarantined(log, now, p) <==> c.quarantinedUntil.Some? && now < c.quarantinedUntil.value
    ensures Clears(SinceClear(log, p), now, p) <==> c.quarantinedUntil.Some? && c.quarantinedUntil.value <= now
  {
    var f := SinceClear(log, p);
    if c.quarantinedUntil.Some? {
      var k :| 0 <= k < |f| && LastTrip(f, k, p) && c.quarantinedUntil.value == f[k] + p.coolOff;
      assert forall i :: 0 <= i < |f| && Trips(f, i, p) ==> f[i] <= f[k];
    }
  }

  /** A check: still quarantined, lapsed (and cleared), or never tripped. */
  lemma StrikeCheck(c: CandidateFailures, log: seq<Strike>, p: Policy, now: nat)
    requires StrikesOk(c, log, p, now)
    ensures StrikesOk(Checked(c, now), log + [Check(now)], p, now)
  {
    StrikeRead(c, log, p, now);
    assert (log + [Check(now)])[..|log|] == log;
  }

  /** Of the two live sources a hard one governs a soft one, else the later reset. */
  function Governing(polled: Option<UsageCordon>, reactive: Option<UsageCordon>): Option<UsageCordon> {
    if polled.Some? && reactive.Some? then
      if polled.value.soft != reactive.value.soft then if polled.value.soft then reactive else polled
      else if reactive.value.resetsAt > polled.value.resetsAt then reactive else polled
    else if polled.Some? then polled else reactive
  }

  /** One more failure, seen from any later time. */
  lemma StruckOut(log: seq<Strike>, at: nat, p: Policy)
    ensures var after, f := log + [Failure(at)], SinceClear(log, p);
            && SinceClear(after, p) == f + [at]
            && (|Within(f + [at], at, p.window)| < p.threshold ==>
                  forall t: nat :: Quarantined(after, t, p) <==> Quarantined(log, t, p))
            && (|Within(f + [at], at, p.window)| >= p.threshold && (forall i :: 0 <= i < |f| ==> f[i] <= at) ==>
                  forall t: nat :: at <= t ==> (Quarantined(after, t, p) <==> t < at + p.coolOff))
  {
    var after, f := log + [Failure(at)], SinceClear(log, p);
    assert after[..|log|] == log;
    assert SinceClear(after, p) == f + [at];
    if |Within(f + [at], at, p.window)| < p.threshold {
      forall t: nat
        ensures Quarantined(after, t, p) <==> Quarantined(log, t, p)
      {
        BelowThreshold(log, at, t, p);
      }
    } else {
      assert after + [] == after;
      forall t: nat | t < at + p.coolOff
        ensures Quarantined(after, t, p)
      {
        ThresholdQuarantines(log, at, [], t, p);
      }
    }
  }

  class HeadroomTracker {
    const window: nat
    const quarantineFailures: nat
    const quarantineCooloff: nat
    const cordonDefault: nat
    const budgets: map<string, nat>
    var agents: map<string, AgentWindow>
    var candidates: map<CandidateId, CandidateFailures>
    var cordons: map<string, Call>
    var usageCordons: map<CandidateId, UsageCordon>
    var candidateCordons: map<CandidateId, UsageCordon>
    var modelOutages: map<(string, string), UsageCordon>

    ghost var promptLog: map<string, seq<nat>>
    ghost var exhaustLog: map<string, seq<nat>>
    ghost var cordonLog: map<string, seq<Call>>
    ghost var strikeLog: map<CandidateId, seq<Strike>>
    ghost var polls: seq<Poll>
    ghost var reactiveLog: map<CandidateId, seq<Call>>
    ghost var outageLog: map<(string, string), seq<Call>>
    ghost var clock: nat        // the latest monotonic instant seen
    ghost var wall: nat         // the latest wall-clock time seen

    function Policy(): Policy {
      HeadroomSpec.Policy(window, quarantineFailures, quarantineCooloff)
    }

    /** The configured budget, at least one prompt. */
    function Budget(agent: string): (b: nat)
      ensures b > 0
      ensures agent in budgets ==> b == if budgets[agent] == 0 then 1 else budgets[agent]
      ensures agent !in budgets ==> b == 400
    {
      var b := if agent in budgets then budgets[agent] else DEFAULT_BUDGET;
      if b < 1 then 1 else b
    }

    /** The failures of a candidate since its strikes were last cleared. */
    ghost function Strikes(id: CandidateId): seq<nat>
      reads this
    {
      SinceClear(History(strikeLog, id), Policy())
    }

    /** What the strike history says about time `t`. */
    ghost predicate Out(id: CandidateId, t: nat)
      reads this
    {
      Quarantined(History(strikeLog, id), t, Policy())
    }

    ghost predicate Valid()
      reads this
    {
      && WindowsOk(agents, promptLog, exhaustLog, window, clock)
      && CordonsOk(cordons, cordonLog, clock)
      && QuarantineOk(candidates, strikeLog, Policy(), clock)
      && PolledOk(usageCordons, polls, wall)
      && ReactiveOk(candidateCordons, reactiveLog)
      && ReactiveOk(modelOutages, outageLog)
    }

    constructor (window: nat, quarantineFailures: nat, quarantineCooloff: nat, cordonDefault: nat,
                 budgets: map<string, nat>)
      ensures Valid()
      ensures promptLog == map[] && exhaustLog == map[] && cordonLog == map[] && strikeLog == map[]
      ensures polls == [] && reactiveLog == map[] && outageLog == map[] && clock == 0 && wall == 0
      ensures this.window == window && this.quarantineFailures == quarantineFailures
      ensures this.quarantineCooloff == quarantineCooloff && this.cordonDefault == cordonDefault
      ensures this.budgets == budgets
    {
      this.window, this.quarantineFailures, this.quarantineCooloff := window, quarantineFailures, quarantineCooloff;
      this.cordonDefault, this.budgets := cordonDefault, budgets;
      agents, candidates, cordons := map[], map[], map[];
      usageCordons, candidateCordons, modelOutages := map[], map[], map[];
      promptLog, exhaustLog, cordonLog, strikeLog := map[], map[], map[], map[];
      polls, reactiveLog, outageLog, clock, wall := [], map[], map[], 0, 0;
    }

    ghost method Tick(now: nat)
      requires Valid() && clock <= now
      modifies this`clock
      ensures Valid() && clock == now
    {
      Advance(agents, promptLog, exhaustLog, window, cordons, cordonLog, candidates, strikeLog, Policy(), clock, now);
      clock := now;
    }

    /** Keep the longer of the stored cordon and the new one. */
    method CordonAt(agent: string, duration: Option<nat>, reason: string, now: nat) returns (effective: nat)
      requires Valid() && clock <= now
      modifies this`cordons, this`cordonLog, this`clock
      ensures Valid() && clock == now
      ensures effective == if duration.Some? then duration.value else cordonDefault
      ensures cordonLog == old(cordonLog)[agent := History(old(cordonLog), agent) + [Call(now + effective, reason)]]
    {
      Tick(now);
      effective := if duration.Some? then duration.value else cordonDefault;
      var call := Call(now + effective, reason);
      CordonCalled(cordons, cordonLog, now, agent, call);
      cordonLog := cordonLog[agent := History(cordonLog, agent) + [call]];
      if agent !in cordons || cordons[agent].until < call.until {
        cordons := cordons[agent := call];
      }
    }

    /** Remaining cordon and reason; an expired entry is dropped. */
    method CordonActiveAt(agent: string, now: nat) returns (r: Option<(nat, string)>)
      requires Valid() && clock <= now
      modifies this`cordons, this`clock
      ensures Valid() && clock == now
      ensures CordonAnswer(History(cordonLog, agent), now, r)
    {
      Tick(now);
      CordonRead(cordons, cordonLog, now, agent);
      if agent in cordons && now < cordons[agent].until {
        r := Some((cordons[agent].until - now, cordons[agent].reason));
      } else {
        cordons := cordons - {agent};
        r := None;
      }
    }

    /** Pop stale instants from the front. */
    static method Trim(window: nat, now: nat, events: seq<nat>) returns (kept: seq<nat>)
      ensures kept == Trimmed(events, now, window)
    {
      kept := events;
      while kept != [] && now - kept[0] > window
        invariant Trimmed(kept, now, window) == Trimmed(events, now, window)
        decreases |kept|
      {
        kept := kept[1..];
      }
    }

    method RecordPromptAt(agent: string, now: nat)
      requires Valid() && clock <= now
      modifies this`agents, this`promptLog, this`clock
      ensures Valid() && clock == now
      ensures promptLog == old(promptLog)[agent := History(old(promptLog), agent) + [now]]
    {
      Tick(now);
      PromptRecorded(agents, promptLog, exhaustLog, window, now, agent);
      var w := WindowOf(agents, agent);
      promptLog := promptLog[agent := History(promptLog, agent) + [now]];
      agents := agents[agent := w.(prompts := w.prompts + [now])];
    }

    method RecordExhaustedAt(agent: string, now: nat)
      requires Valid() && clock <= now
      modifies this`agents, this`exhaustLog, this`clock
      ensures Valid() && clock == now
      ensures exhaustLog == old(exhaustLog)[agent := History(old(exhaustLog), agent) + [now]]
    {
      Tick(now);
      ExhaustionRecorded(agents, promptLog, exhaustLog, window, now, agent);
      exhaustLog := exhaustLog[agent := History(exhaustLog, agent) + [now]];
      agents := agents[agent := WindowOf(agents, agent).(exhaustedAt := Some(now))];
    }

    /** The estimate from the trimmed deques is the one of the full history. */
    method HeadroomAt(agent: string, now: nat) returns (h: real)
      requires Valid() && clock <= now
      modifies this`agents, this`cordons, this`clock
      ensures Valid() && clock == now
      ensures h == HeadroomOf(History(promptLog, agent), History(exhaustLog, agent), History(cordonLog, agent),
                              Budget(agent), window, now)
    {
      var cordoned := CordonActiveAt(agent, now);
      if cordoned.Some? {
        return 0.0;
      }
      var w := WindowOf(agents, agent);
      WindowRead(agents, promptLog, exhaustLog, window, now, agent);
      var prompts := Trim(window, now, w.prompts);
      if w.exhaustedAt.Some? && now - w.exhaustedAt.value <= window {
        agents := agents[agent := AgentWindow(prompts, w.exhaustedAt)];
        return 0.0;
      }
      agents := agents[agent := AgentWindow(prompts, None)];
      var left := 1.0 - |prompts| as real / Budget(agent) as real;
      h := if left < 0.0 then 0.0 else if left > 1.0 then 1.0 else left;
    }

    /** Push the failure, trim, and quarantine once the threshold is reached. */
    static method Strike(c: CandidateFailures, p: Policy, now: nat) returns (c': CandidateFailures)
      ensures c' == Struck(c, p, now)
    {
      var failures := Trim(p.window, now, c.failures + [now]);
      var until := c.quarantinedUntil;
      if |failures| >= p.threshold {
        until := Some(now + p.coolOff);
      }
      c' := CandidateFailures(failures, until);
    }

    /** A failure that makes `quarantineFailures` of them within `window` puts the
        candidate out for exactly the cool-off; any other changes nothing. */
    method RecordPrePromptFailureAt(id: CandidateId, now: nat)
      requires Valid() && clock <= now
      modifies this`candidates, this`strikeLog, this`clock
      ensures Valid() && clock == now
      ensures strikeLog == old(strikeLog)[id := History(old(strikeLog), id) + [Failure(now)]]
      ensures Strikes(id) == old(Strikes(id)) + [now]
      ensures |Within(Strikes(id), now, window)| >= quarantineFailures ==>
                forall t: nat :: now <= t ==> (Out(id, t) <==> t < now + quarantineCooloff)
      ensures |Within(Strikes(id), now, window)| < quarantineFailures ==>
                forall t: nat :: Out(id, t) <==> old(Out(id, t))
    {
      StruckOut(History(strikeLog, id), now, Policy());
      assert StrikesAt(candidates, strikeLog, Policy(), clock, id);
      Tick(now);
      FailureRecorded(candidates, strikeLog, Policy(), now, id);
      strikeLog := strikeLog[id := History(strikeLog, id) + [Failure(now)]];
      var c := Strike(StrikesOf(candidates, id), Policy(), now);
      candidates := candidates[id := c];
    }

    /** A candidate is quarantined exactly as its whole strike history says. */
    method IsQuarantinedAt(id: CandidateId, now: nat) returns (quarantined: bool)
      requires Valid() && clock <= now
      modifies this`candidates, this`strikeLog, this`clock
      ensures Valid() && clock == now
      ensures quarantined <==> old(Out(id, now))
      ensures strikeLog == old(strikeLog)[id := History(old(strikeLog), id) + [Check(now)]]
      ensures Strikes(id) == if quarantined || !Completes(old(Strikes(id)), window, quarantineFailures)
                             then old(Strikes(id)) else []
    {
      CheckClears(History(strikeLog, id), now, Policy());
      Tick(now);
      StrikesChecked(candidates, strikeLog, Policy(), now, id);
      strikeLog := strikeLog[id := History(strikeLog, id) + [Check(now)]];
      if id !in candidates || candidates[id].quarantinedUntil.None? {
        return false;
      }
      if now < candidates[id].quarantinedUntil.value {
        return true;
      }
      candidates := candidates[id := CandidateFailures([], None)];
      return false;
    }

    /** Install a partial poll: observed agents are replaced, unknown readings
        keep their unexpired cordons. */
    method ReconcileUsageCordons(listed: map<CandidateId, UsageCordon>, observed: set<string>, now: nat)
      requires Valid() && wall <= now
      modifies this`usageCordons, this`polls, this`wall
      ensures Valid() && wall == now
      ensures polls == old(polls) + [Poll(now, listed, observed)]
    {
      var kept := map id | id in usageCordons && now < usageCordons[id].resetsAt && id.agent !in observed
        :: usageCordons[id];
      ghost var after := polls + [Poll(now, listed, observed)];
      assert after[..|after| - 1] == polls;
      forall id
        ensures PolledAt(kept + listed, after, now, id)
      {
        assert PolledAt(usageCordons, polls, wall, id);
      }
      usageCordons := kept + listed;
      polls := after;
      wall := now;
    }

    /** A reactive cordon on one candidate never shortens. */
    method CordonCandidate(id: CandidateId, reason: string, resetsAt: nat)
      requires Valid()
      modifies this`candidateCordons, this`reactiveLog
      ensures Valid()
      ensures reactiveLog == old(reactiveLog)[id := History(old(reactiveLog), id) + [Call(resetsAt, reason)]]
    {
      ReactiveUpdate(candidateCordons, reactiveLog, id, Call(resetsAt, reason));
      reactiveLog := reactiveLog[id := History(reactiveLog, id) + [Call(resetsAt, reason)]];
      if id in candidateCordons && candidateCordons[id].resetsAt >= resetsAt {
        return;
      }
      candidateCordons := candidateCordons[id := UsageCordon(reason, resetsAt, false)];
    }

    /** A provider outage of one model only ever extends. */
    method CordonModelOutage(lineage: string, model: string, reason: string, resetsAt: nat)
      requires Valid()
      modifies this`modelOutages, this`outageLog
      ensures Valid()
      ensures var key := (lineage, model);
              outageLog == old(outageLog)[key := History(old(outageLog), key) + [Call(resetsAt, reason)]]
    {
      var key := (lineage, model);
      ReactiveUpdate(modelOutages, outageLog, key, Call(resetsAt, reason));
      outageLog := outageLog[key := History(outageLog, key) + [Call(resetsAt, reason)]];
      if key in modelOutages && modelOutages[key].resetsAt >= resetsAt {
        return;
      }
      modelOutages := modelOutages[key := UsageCordon(reason, resetsAt, false)];
    }

    /** The outage in force is the longest reported one. */
    function ModelOutage(lineage: string, model: string, now: nat): (r: Option<UsageCordon>)
      requires Valid()
      reads this
      ensures var calls := History(outageLog, (lineage, model));
              r.Some? <==> exists i :: 0 <= i < |calls| && calls[i].until > now
      ensures r.Some? ==> exists k :: FirstMax(History(outageLog, (lineage, model)), k)
                                      && r.value == UsageCordon(History(outageLog, (lineage, model))[k].reason,
                                                                History(outageLog, (lineage, model))[k].until, false)
    {
      assert KeptAt(modelOutages, outageLog, (lineage, model));
      KeptLive(MapGet(modelOutages, (lineage, model)), History(outageLog, (lineage, model)), now);
      LiveAt(MapGet(modelOutages, (lineage, model)), now)
    }

    /** A candidate is blocked exactly when the latest poll that spoke about it
        or some reactive cordon still is, hard exactly when a live source is,
        and until the last live source of that kind resets; on a tie the poll's
        reason is given. */
    function UsageCordonAt(id: CandidateId, now: nat): (r: Option<UsageCordon>)
      requires Valid() && wall <= now
      reads this
      ensures var polled, calls := LatestPolled(polls, id), History(reactiveLog, id);
              var blocks := polled.Some? && polled.value.resetsAt > now;
              var reactive := exists i :: 0 <= i < |calls| && calls[i].until > now;
              && (r.Some? <==> blocks || reactive)
              && (r.Some? ==> r.value.resetsAt > now)
              && (r.Some? ==> (!r.value.soft <==> (blocks && !polled.value.soft) || reactive))
              && (r.Some? && blocks && polled.value.resetsAt == r.value.resetsAt && polled.value.soft == r.value.soft
                  ==> r == polled)
      ensures r.Some? && !r.value.soft ==>
        forall i :: 0 <= i < |History(reactiveLog, id)| ==> History(reactiveLog, id)[i].until <= r.value.resetsAt
      ensures r.Some? && LatestPolled(polls, id).Some? && LatestPolled(polls, id).value.soft == r.value.soft ==>
        LatestPolled(polls, id).value.resetsAt <= r.value.resetsAt
      ensures r.Some? ==> r == LatestPolled(polls, id)
                          || exists k :: FirstMax(History(reactiveLog, id), k)
                                         && r.value == UsageCordon(History(reactiveLog, id)[k].reason,
                                                                   History(reactiveLog, id)[k].until, false)
    {
      assert PolledAt(usageCordons, polls, wall, id);
      assert KeptAt(candidateCordons, reactiveLog, id);
      KeptLive(MapGet(candidateCordons, id), History(reactiveLog, id), now);
      Governing(LiveAt(MapGet(usageCordons, id), now), LiveAt(MapGet(candidateCordons, id), now))
    }
  }
}
