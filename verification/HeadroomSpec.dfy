/**
 What the trackers of src/headroom.rs mean, told from complete histories:
 every prompt, exhaustion, cordon, failure, check and poll ever seen.
 */
module HeadroomSpec {
  import opened Common

  datatype UsageCordon = UsageCordon(reason: string, resetsAt: nat, soft: bool)

  /** A request to keep something out of routing until `until`. */
  datatype Call = Call(until: nat, reason: string)

  /** The history kept under a key; nothing happened to a missing one. */
  function History<K, V>(log: map<K, seq<V>>, k: K): seq<V> {
    if k in log then log[k] else []
  }

  // ---- Sliding windows ----

  /** `t` lies within the window that ends at `now`. */
  predicate Recent(t: nat, now: nat, window: nat) {
    now - t <= window
  }

  function CountRecent(ts: seq<nat>, now: nat, window: nat): nat {
    if ts == [] then 0
    else CountRecent(ts[..|ts| - 1], now, window) + if Recent(ts[|ts| - 1], now, window) then 1 else 0
  }

  predicate AnyRecent(ts: seq<nat>, now: nat, window: nat) {
    exists i :: 0 <= i < |ts| && Recent(ts[i], now, window)
  }

  predicate Sorted(ts: seq<nat>) {
    forall i, j :: 0 <= i < j < |ts| ==> ts[i] <= ts[j]
  }

  /** `kept` is what is left of `all` once some of its stale front is dropped. */
  predicate TrimmedFrom(kept: seq<nat>, all: seq<nat>, now: nat, window: nat) {
    && |kept| <= |all| && kept == all[|all| - |kept|..]
    && forall i :: 0 <= i < |all| - |kept| ==> !Recent(all[i], now, window)
  }

  /** `events` without its stale front. */
  function Trimmed(events: seq<nat>, now: nat, window: nat): seq<nat> {
    if events != [] && !Recent(events[0], now, window) then Trimmed(events[1..], now, window) else events
  }

  lemma {:induction false} TrimmedMeaning(events: seq<nat>, now: nat, window: nat)
    ensures TrimmedFrom(Trimmed(events, now, window), events, now, window)
    ensures var kept := Trimmed(events, now, window); kept != [] ==> Recent(kept[0], now, window)
  {
    if events != [] && !Recent(events[0], now, window) {
      TrimmedMeaning(events[1..], now, window);
      TrimAgain(Trimmed(events[1..], now, window), events[1..], events, now, window);
    }
  }

  lemma TrimAgain(kept: seq<nat>, mid: seq<nat>, all: seq<nat>, now: nat, window: nat)
    requires TrimmedFrom(kept, mid, now, window) && TrimmedFrom(mid, all, now, window)
    ensures TrimmedFrom(kept, all, now, window)
  {
    var d := |all| - |mid|;
    forall i | d <= i < |all| - |kept|
      ensures !Recent(all[i], now, window)
    {
      assert all[i] == mid[i - d];
    }
  }

  lemma TrimAppend(kept: seq<nat>, all: seq<nat>, at: nat, now: nat, window: nat)
    requires TrimmedFrom(kept, all, now, window)
    ensures TrimmedFrom(kept + [at], all + [at], now, window)
  {
  }

  lemma {:induction false} TrimmedCount(kept: seq<nat>, all: seq<nat>, now: nat, window: nat)
    requires Sorted(all) && TrimmedFrom(kept, all, now, window)
    requires kept != [] ==> Recent(kept[0], now, window)
    ensures |kept| == CountRecent(all, now, window)
    decreases |all|
  {
    if all != [] {
      var init := all[..|all| - 1];
      if kept == [] {
        TrimmedCount([], init, now, window);
      } else {
        assert Recent(all[|all| - 1], now, window);
        TrimmedCount(kept[..|kept| - 1], init, now, window);
      }
    }
  }

  /** Trimming what was already trimmed before leaves exactly the window of the
      full history. */
  lemma TrimmedLength(mid: seq<nat>, all: seq<nat>, now: nat, window: nat)
    requires Sorted(all) && TrimmedFrom(mid, all, now, window)
    ensures TrimmedFrom(Trimmed(mid, now, window), all, now, window)
    ensures |Trimmed(mid, now, window)| == CountRecent(all, now, window)
  {
    TrimmedMeaning(mid, now, window);
    TrimAgain(Trimmed(mid, now, window), mid, all, now, window);
    TrimmedCount(Trimmed(mid, now, window), all, now, window);
  }

  /** The instants of `ts` at most `window` before `now`, by position. */
  function Within(ts: seq<nat>, now: nat, window: nat): set<int> {
    set i | 0 <= i < |ts| && now - ts[i] <= window
  }

  lemma {:induction false} CountIsWithin(ts: seq<nat>, now: nat, window: nat)
    ensures CountRecent(ts, now, window) == |Within(ts, now, window)|
  {
    if ts != [] {
      var init := ts[..|ts| - 1];
      CountIsWithin(init, now, window);
      var last := if now - ts[|ts| - 1] <= window then {|ts| - 1} else {};
      assert Within(ts, now, window) == Within(init, now, window) + last;
    }
  }

  lemma {:induction false} CountBounded(ts: seq<nat>, now: nat, window: nat)
    ensures CountRecent(ts, now, window) <= |ts|
  {
    if ts != [] {
      CountBounded(ts[..|ts| - 1], now, window);
    }
  }

  // ---- Cordons ----

  predicate AnyLive(calls: seq<Call>, now: nat) {
    exists i :: 0 <= i < |calls| && now < calls[i].until
  }

  /** `k` is the first call whose end is the latest of all. */
  predicate FirstMax(calls: seq<Call>, k: int) {
    && 0 <= k < |calls|
    && (forall i :: 0 <= i < |calls| ==> calls[i].until <= calls[k].until)
    && (forall i :: 0 <= i < k ==> calls[i].until < calls[k].until)
  }

  /** The answer about a cordoned agent: how long still, and why. */
  ghost predicate CordonAnswer(calls: seq<Call>, now: nat, r: Option<(nat, string)>) {
    && (r.Some? <==> AnyLive(calls, now))
    && (r.Some? ==> exists k :: FirstMax(calls, k) && r.value.0 == calls[k].until - now && r.value.1 == calls[k].reason)
  }

  /** The answer is fully determined by the calls and the time. */
  lemma CordonAnswerUnique(calls: seq<Call>, now: nat, r1: Option<(nat, string)>, r2: Option<(nat, string)>)
    requires CordonAnswer(calls, now, r1) && CordonAnswer(calls, now, r2)
    ensures r1 == r2
  {
    if r1.Some? {
      var k1 :| FirstMax(calls, k1) && r1.value.0 == calls[k1].until - now && r1.value.1 == calls[k1].reason;
      var k2 :| FirstMax(calls, k2) && r2.value.0 == calls[k2].until - now && r2.value.1 == calls[k2].reason;
      assert k1 == k2;
    }
  }

  /** A cordon keeps the agent out for its whole time, at least; the agent is
      free exactly from the end of the last one on, and is told the reason of the
      first that lasts longest. */
  lemma CordonHolds(calls: seq<Call>, k: nat, t: nat, r: Option<(nat, string)>)
    requires k < |calls| && CordonAnswer(calls, t, r)
    ensures t < calls[k].until ==> r.Some? && r.value.0 >= calls[k].until - t
    ensures r.None? <==> forall i :: 0 <= i < |calls| ==> calls[i].until <= t
    ensures (forall i :: 0 <= i < |calls| && i != k ==>
               calls[i].until <= calls[k].until && (i < k ==> calls[i].until < calls[k].until)) ==>
              t < calls[k].until ==> r == Some((calls[k].until - t, calls[k].reason))
  {
    if r.Some? {
      var j :| FirstMax(calls, j) && r.value.0 == calls[j].until - t && r.value.1 == calls[j].reason;
    }
  }

  // ---- Headroom ----

  /** Zero under a live cordon or a recent exhaustion; otherwise the unused
      share of the budget, never below zero. */
  function HeadroomOf(prompts: seq<nat>, exhausted: seq<nat>, cordons: seq<Call>,
                      budget: nat, window: nat, now: nat): (h: real)
    requires budget > 0
    ensures 0.0 <= h <= 1.0
  {
    if AnyLive(cordons, now) || AnyRecent(exhausted, now, window) then 0.0
    else
      var left := 1.0 - CountRecent(prompts, now, window) as real / budget as real;
      if left < 0.0 then 0.0 else left
  }

  /** The estimate without the model's own words: zero while a call has not
      ended or an exhaustion is at most `window` old; else what the prompts at most
      `window` old leave of the budget. A fresh agent has it all, a used up budget
      leaves nothing, and each prompt in between takes an equal share. */
  lemma HeadroomMeaning(prompts: seq<nat>, exhausted: seq<nat>, cordons: seq<Call>, budget: nat, window: nat, now: nat)
    requires budget > 0
    ensures var h := HeadroomOf(prompts, exhausted, cordons, budget, window, now);
            var used := |Within(prompts, now, window)|;
            if (exists i :: 0 <= i < |cordons| && cordons[i].until > now) || Within(exhausted, now, window) != {}
            then h == 0.0
            else
              && (h == 0.0 <==> used >= budget) && (h == 1.0 <==> used == 0)
              && (used <= budget ==> h * budget as real == (budget - used) as real)
  {
    CountIsWithin(prompts, now, window);
    if AnyRecent(exhausted, now, window) {
      var i :| 0 <= i < |exhausted| && Recent(exhausted[i], now, window);
      assert i in Within(exhausted, now, window);
    }
    if Within(exhausted, now, window) != {} {
      var i :| i in Within(exhausted, now, window);
      assert Recent(exhausted[i], now, window);
    }
    Share(|Within(prompts, now, window)|, budget);
  }

  lemma Share(used: nat, budget: nat)
    requires budget > 0
    ensures var left := 1.0 - used as real / budget as real;
            && left * budget as real == (budget - used) as real
            && (left <= 0.0 <==> used >= budget) && (left == 1.0 <==> used == 0)
  {
    var b, u := budget as real, used as real;
    var q := u / b;
    assert q * b == u;
    assert (1.0 - q) * b == b - u;
  }

  // ---- Quarantine ----

  datatype Policy = Policy(window: nat, threshold: nat, coolOff: nat)
  datatype Strike = Failure(at: nat) | Check(at: nat)

  /** Failure `i` is the one that completes a threshold within its window. */
  predicate Trips(failures: seq<nat>, i: nat, p: Policy)
    requires i < |failures|
  {
    CountRecent(failures[..i + 1], failures[i], p.window) >= p.threshold
  }

  predicate QuarantinedBy(failures: seq<nat>, t: nat, p: Policy) {
    exists i :: 0 <= i < |failures| && Trips(failures, i, p) && t < failures[i] + p.coolOff
  }

  /** A check clears the strikes when it finds a quarantine that has run out. */
  predicate Clears(failures: seq<nat>, t: nat, p: Policy) {
    (exists i :: 0 <= i < |failures| && Trips(failures, i, p)) && !QuarantinedBy(failures, t, p)
  }

  /** The failures since the strikes were last cleared. */
  function SinceClear(log: seq<Strike>, p: Policy): seq<nat> {
    if log == [] then []
    else
      var before := SinceClear(log[..|log| - 1], p);
      match log[|log| - 1]
      case Failure(at) => before + [at]
      case Check(at) => if Clears(before, at, p) then [] else before
  }

  predicate Quarantined(log: seq<Strike>, t: nat, p: Policy) {
    QuarantinedBy(SinceClear(log, p), t, p)
  }

  function FailureCount(log: seq<Strike>): nat {
    if log == [] then 0 else FailureCount(log[..|log| - 1]) + if log[|log| - 1].Failure? then 1 else 0
  }

  lemma {:induction false} SinceClearFromLog(log: seq<Strike>, p: Policy)
    ensures forall i :: 0 <= i < |SinceClear(log, p)| ==> Failure(SinceClear(log, p)[i]) in log
  {
    if log != [] {
      SinceClearFromLog(log[..|log| - 1], p);
      forall i | 0 <= i < |SinceClear(log, p)|
        ensures Failure(SinceClear(log, p)[i]) in log
      {
        assert log == log[..|log| - 1] + [log[|log| - 1]];
      }
    }
  }

  /** Without new failures a quarantine always lifts, after at most one cool-off. */
  lemma QuarantineLifts(log: seq<Strike>, t: nat, p: Policy)
    requires forall k :: 0 <= k < |log| && log[k].Failure? ==> log[k].at + p.coolOff <= t
    ensures !Quarantined(log, t, p)
  {
    SinceClearFromLog(log, p);
    var f := SinceClear(log, p);
    forall i | 0 <= i < |f|
      ensures f[i] + p.coolOff <= t
    {
      assert Failure(f[i]) in log;
    }
  }

  lemma {:induction false} SinceClearBounded(log: seq<Strike>, more: seq<Strike>, p: Policy)
    requires SinceClear(log, p) == []
    ensures |SinceClear(log + more, p)| <= FailureCount(more)
  {
    if more == [] {
      assert log + more == log;
    } else {
      SinceClearBounded(log, more[..|more| - 1], p);
      assert (log + more)[..|log + more| - 1] == log + more[..|more| - 1];
    }
  }

  /** After a check that saw a quarantine lapse, only a full threshold of new
      failures can quarantine the candidate again. */
  lemma LapseNeedsFreshThreshold(log: seq<Strike>, at: nat, more: seq<Strike>, t: nat, p: Policy)
    requires Clears(SinceClear(log, p), at, p)
    requires FailureCount(more) < p.threshold
    ensures !Quarantined(log + [Check(at)] + more, t, p)
  {
    var lapsed := log + [Check(at)];
    assert lapsed[..|lapsed| - 1] == log;
    SinceClearBounded(lapsed, more, p);
    var f := SinceClear(lapsed + more, p);
    forall i | 0 <= i < |f|
      ensures !Trips(f, i, p)
    {
      CountBounded(f[..i + 1], f[i], p.window);
    }
  }

  /** Failures that follow do not undo a trip. */
  lemma TripsStable(f: seq<nat>, at: nat, i: nat, p: Policy)
    requires i < |f|
    ensures Trips(f + [at], i, p) == Trips(f, i, p)
  {
    assert (f + [at])[..i + 1] == f[..i + 1];
  }

  /** `f` has a failure at `at` that completed a threshold. */
  predicate TrippedAt(f: seq<nat>, at: nat, p: Policy) {
    exists i :: 0 <= i < |f| && Trips(f, i, p) && f[i] == at
  }

  lemma {:induction false} TripStands(log: seq<Strike>, at: nat, more: seq<Strike>, p: Policy)
    requires TrippedAt(SinceClear(log, p), at, p)
    requires forall k :: 0 <= k < |more| ==> more[k].at < at + p.coolOff
    ensures TrippedAt(SinceClear(log + more, p), at, p)
  {
    if more == [] {
      assert log + more == log;
    } else {
      var init, last := more[..|more| - 1], more[|more| - 1];
      TripStands(log, at, init, p);
      assert (log + more)[..|log + more| - 1] == log + init;
      var f := SinceClear(log + init, p);
      var i :| 0 <= i < |f| && Trips(f, i, p) && f[i] == at;
      if last.Failure? {
        TripsStable(f, last.at, i, p);
        assert (f + [last.at])[i] == at;
      } else {
        assert QuarantinedBy(f, last.at, p);
      }
    }
  }

  /** A failure that brings the failures of the last `window` since the strikes
      were cleared to the threshold quarantines: at every time before its cool-off
      ends, whatever failures and checks arrive until then. */
  lemma ThresholdQuarantines(log: seq<Strike>, at: nat, more: seq<Strike>, t: nat, p: Policy)
    requires |Within(SinceClear(log, p) + [at], at, p.window)| >= p.threshold
    requires forall k :: 0 <= k < |more| ==> more[k].at < at + p.coolOff
    requires t < at + p.coolOff
    ensures Quarantined(log + [Failure(at)] + more, t, p)
  {
    var f := SinceClear(log, p) + [at];
    assert (log + [Failure(at)])[..|log|] == log;
    assert SinceClear(log + [Failure(at)], p) == f;
    CountIsWithin(f, at, p.window);
    assert f[..|f|] == f && f[|f| - 1] == at && Trips(f, |f| - 1, p);
    TripStands(log + [Failure(at)], at, more, p);
    var g := SinceClear(log + [Failure(at)] + more, p);
    var i :| 0 <= i < |g| && Trips(g, i, p) && g[i] == at;
    assert Trips(g, i, p) && t < g[i] + p.coolOff;
  }

  /** A failure below the threshold starts no quarantine: a candidate that was
      free at some time from then on stays free at that time. */
  lemma BelowThreshold(log: seq<Strike>, at: nat, t: nat, p: Policy)
    requires |Within(SinceClear(log, p) + [at], at, p.window)| < p.threshold
    ensures Quarantined(log + [Failure(at)], t, p) <==> Quarantined(log, t, p)
  {
    var f := SinceClear(log, p);
    assert (log + [Failure(at)])[..|log|] == log;
    assert SinceClear(log + [Failure(at)], p) == f + [at];
    CountIsWithin(f + [at], at, p.window);
    assert (f + [at])[..|f| + 1] == f + [at];
    forall i | 0 <= i < |f|
      ensures Trips(f + [at], i, p) == Trips(f, i, p)
    {
      TripsStable(f, at, i, p);
    }
    if Quarantined(log, t, p) {
      var i :| 0 <= i < |f| && Trips(f, i, p) && t < f[i] + p.coolOff;
      assert Trips(f + [at], i, p) && t < (f + [at])[i] + p.coolOff;
    }
    if Quarantined(log + [Failure(at)], t, p) {
      var i :| 0 <= i <= |f| && Trips(f + [at], i, p) && t < (f + [at])[i] + p.coolOff;
      assert Trips(f, i, p) && t < f[i] + p.coolOff;
    }
  }

  /** Some failure made a threshold of them within its window. */
  predicate Completes(f: seq<nat>, window: nat, threshold: nat) {
    exists i :: 0 <= i < |f| && |Within(f[..i + 1], f[i], window)| >= threshold
  }

  /** What a check leaves of the strikes: all of them, unless it finds that a
      quarantine they brought has run out. */
  lemma CheckClears(log: seq<Strike>, at: nat, p: Policy)
    ensures var f, after := SinceClear(log, p), SinceClear(log + [Check(at)], p);
            after == if Quarantined(log, at, p) || !Completes(f, p.window, p.threshold) then f else []
  {
    var f := SinceClear(log, p);
    assert (log + [Check(at)])[..|log|] == log;
    forall i | 0 <= i < |f|
      ensures Trips(f, i, p) <==> |Within(f[..i + 1], f[i], p.window)| >= p.threshold
    {
      CountIsWithin(f[..i + 1], f[i], p.window);
    }
  }

  // ---- Polled usage cordons ----

  /** One poll: the cordons it lists, and the agents it got a usable reading for. */
  datatype Poll = Poll(at: nat, cordons: map<CandidateId, UsageCordon>, observed: set<string>)

  /** What the latest poll that spoke about `id` said: it listed the candidate,
      or observed its agent without listing it. */
  function LatestPolled(polls: seq<Poll>, id: CandidateId): Option<UsageCordon> {
    if polls == [] then None
    else
      var p := polls[|polls| - 1];
      if id in p.cordons then Some(p.cordons[id])
      else if id.agent in p.observed then None
      else LatestPolled(polls[..|polls| - 1], id)
  }

  /** Poll `p` speaks about the candidate. */
  predicate Speaks(p: Poll, id: CandidateId) {
    id in p.cordons || id.agent in p.observed
  }

  /** The candidate's polled cordon is the one listed by the last poll that spoke
      about it; a poll that observed the agent and listed nothing for the
      candidate frees it of every earlier one. */
  lemma {:induction false} LatestPolledMeaning(polls: seq<Poll>, id: CandidateId, k: nat)
    requires k < |polls| && Speaks(polls[k], id)
    requires forall j :: k < j < |polls| ==> !Speaks(polls[j], id)
    ensures LatestPolled(polls, id) == MapGet(polls[k].cordons, id)
  {
    if k < |polls| - 1 {
      assert !Speaks(polls[|polls| - 1], id);
      LatestPolledMeaning(polls[..|polls| - 1], id, k);
    }
  }

  lemma {:induction false} NeverPolled(polls: seq<Poll>, id: CandidateId)
    requires forall j :: 0 <= j < |polls| ==> !Speaks(polls[j], id)
    ensures LatestPolled(polls, id).None?
  {
    if polls != [] {
      assert !Speaks(polls[|polls| - 1], id);
      NeverPolled(polls[..|polls| - 1], id);
    }
  }

  function LiveAt(c: Option<UsageCordon>, now: nat): Option<UsageCordon> {
    if c.Some? && now < c.value.resetsAt then c else None
  }
}
