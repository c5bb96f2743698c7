/**
 The cross-process credential repair protocol of src/credentials.rs.

 Any number of processes share one credential file, one repair record and one
 lock. `Next` is one indivisible action of one participant; a run is any
 sequence of enabled events, so outside writes, logins, late successes, failed
 writes and crashes interleave with repairs in every possible way.
 */
module Repair {
  import opened Common

  /** A stored credential file. `rest` is what the file holds beside the token
      material (Claude keeps MCP OAuth data there); other providers have none. */
  datatype Value = Value(access: nat, refresh: nat, rest: nat)

  /** The fingerprint of the token material, taken to be injective. */
  datatype Generation = Generation(access: nat, refresh: nat)

  /** `Issued` stands for a random UUID: no two are equal, none is "initial". */
  datatype Epoch = Initial | Issued(n: nat)
  datatype Marker = Marker(generation: Generation, epoch: Epoch)
  datatype Outcome = Repaired | Rejected | Unknown
  datatype Record = Record(generation: Generation, epoch: Epoch, outcome: Outcome, attemptedAt: int)
  datatype Refresh = Refresh(outcome: Outcome, value: Option<Value>)
  datatype Availability = Authenticated | Unauthenticated | Unproven

  datatype Proc =
    | Idle
    | Waiting(observed: Option<Marker>)
    | Locked(observed: Option<Marker>)
    | Refreshing(start: Value, marker: Marker)
    | Returned(start: Value, marker: Marker, result: Refresh)
    | LoginHeld
    | LoginWritten
    | Done(outcome: Outcome)
  {
    predicate HoldsLock() { Locked? || InFlight() || LoginHeld? || LoginWritten? }
    predicate InFlight() { Refreshing? || Returned? }
  }

  datatype State = State(cred: Option<Value>, record: Option<Record>, lock: Option<nat>,
                         procs: map<nat, Proc>, nextEpoch: nat)

  /** Which write of a commit fails, if any. */
  datatype Fault = NoFault | ValueWriteFails | RecordWriteFails

  /** Who reports a success: a probe naming its access token, a request naming
      its marker (both under the lock), or the login flow after publishing. */
  datatype Success = ByAccess(access: nat) | ByRequest(marker: Marker) | AfterLogin

  datatype Event =
    | Request(p: nat, observed: Option<Marker>)
    | GiveUp(p: nat)
    | Acquire(p: nat)
    | Decide(p: nat, now: int)
    | RefreshReturns(p: nat, result: Refresh)
    | Commit(p: nat, now: int, fault: Fault)
    | LoginBegin(p: nat)
    | LoginWrite(p: nat, value: Value)
    | LoginRecord(p: nat, now: int, ok: bool)
    | Succeed(success: Success, now: int)
    | OutsideWrite(cred: Option<Value>)
    | Crash(p: nat)

  const RETRY_DELAY := 5

  // ---- Readers ----

  function GenerationOf(v: Value): Generation {
    Generation(v.access, v.refresh)
  }

  /** The record, when it is about the credential that is stored now. */
  function Matching(v: Value, record: Option<Record>): Option<Record> {
    if record.Some? && record.value.generation == GenerationOf(v) then record else None
  }

  function MarkerOf(v: Value, record: Option<Record>): Marker {
    var previous := Matching(v, record);
    Marker(GenerationOf(v), if previous.Some? then previous.value.epoch else Initial)
  }

  function RequestGeneration(s: State): Option<Marker> {
    if s.cred.None? then None else Some(MarkerOf(s.cred.value, s.record))
  }

  function AvailabilityOf(s: State): Availability {
    if s.cred.None? then Unproven else
    match Matching(s.cred.value, s.record)
    case None => Unproven
    case Some(r) => if r.outcome.Repaired? then Authenticated
                    else if r.outcome.Rejected? then Unauthenticated else Unproven
  }

  function ProcOf(s: State, p: nat): Proc {
    if p in s.procs then s.procs[p] else Idle
  }

  // ---- Writers ----

  datatype Decision = Return(outcome: Outcome) | Start(value: Value, marker: Marker)

  /** What a repairer does with the two files it re-reads under the lock. */
  function DecisionOf(s: State, observed: Option<Marker>, now: int): Decision {
    if s.cred.None? then Return(Unknown) else
    var v := s.cred.value;
    var previous := Matching(v, s.record);
    var current := MarkerOf(v, s.record);
    if observed.None? then Return(Unknown)
    else if observed.value != current then
      Return(if previous.Some? then previous.value.outcome else Repaired)
    else if previous.Some? && previous.value.outcome.Rejected? then Return(Rejected)
    else if previous.Some? && previous.value.outcome.Unknown?
            && now - previous.value.attemptedAt < RETRY_DELAY then Return(Unknown)
    else Start(v, current)
  }

  function SuccessRecord(v: Value, record: Option<Record>, now: int): Option<Record> {
    var previous := Matching(v, record);
    if previous.Some? && previous.value.outcome.Rejected? then record
    else Some(Record(GenerationOf(v), if previous.Some? then previous.value.epoch else Initial, Repaired, now))
  }

  predicate SuccessApplies(s: State, success: Success) {
    s.cred.Some? &&
    match success
    case ByAccess(access) => s.cred.value.access == access
    case ByRequest(marker) => MarkerOf(s.cred.value, s.record) == marker
    case AfterLogin => true
  }

  /** The stored credential still has the token material of `start`. */
  predicate StillCurrent(s: State, start: Value) {
    s.cred.Some? && GenerationOf(s.cred.value) == GenerationOf(start)
  }

  predicate Enabled(s: State, e: Event) {
    match e
    case Request(p, _) => ProcOf(s, p).Idle? || ProcOf(s, p).Done?
    case GiveUp(p) => ProcOf(s, p).Waiting?
    case Acquire(p) => ProcOf(s, p).Waiting? && s.lock.None?
    case Decide(p, _) => ProcOf(s, p).Locked?
    case RefreshReturns(p, result) =>
      ProcOf(s, p).Refreshing? && (result.value.Some? ==> result.outcome.Repaired?)
    case Commit(p, _, _) => ProcOf(s, p).Returned?
    case LoginBegin(p) => (ProcOf(s, p).Idle? || ProcOf(s, p).Done?) && s.lock.None?
    case LoginWrite(p, _) => ProcOf(s, p).LoginHeld?
    case LoginRecord(p, _, _) => ProcOf(s, p).LoginWritten?
    case Succeed(success, _) => s.lock.None? || success.AfterLogin?
    case OutsideWrite(_) => true
    case Crash(_) => true
  }

  function Finish(s: State, p: nat, outcome: Outcome): State {
    s.(lock := None, procs := s.procs[p := Done(outcome)])
  }

  /** Publish the refreshed value, if any, and record the outcome against what
      is stored then. */
  function Publish(s: State, p: nat, result: Refresh, now: int, fault: Fault): State {
    if result.value.Some? && fault.ValueWriteFails? then Finish(s, p, Unknown)
    else
      var written := if result.value.Some? then s.(cred := result.value) else s;
      if written.cred.None? || fault.RecordWriteFails? then Finish(written, p, Unknown)
      else
        var record := Record(GenerationOf(written.cred.value), Issued(s.nextEpoch), result.outcome, now);
        Finish(written.(record := Some(record), nextEpoch := s.nextEpoch + 1), p, result.outcome)
  }

  /** A commit, as one action: a newer write wins, otherwise publish. */
  function CommitStep(s: State, p: nat, start: Value, result: Refresh, now: int, fault: Fault): State {
    if s.cred.None? then Finish(s, p, Unknown)
    else if !StillCurrent(s, start) then Finish(s, p, Repaired)
    else Publish(s, p, result, now, fault)
  }

  function Step(s: State, e: Event): State
    requires Enabled(s, e)
  {
    match e
    case Request(p, observed) => s.(procs := s.procs[p := Waiting(observed)])
    case GiveUp(p) => s.(procs := s.procs[p := Done(Unknown)])
    case Acquire(p) => s.(lock := Some(p), procs := s.procs[p := Locked(ProcOf(s, p).observed)])
    case Decide(p, now) =>
      (match DecisionOf(s, ProcOf(s, p).observed, now)
       case Return(outcome) => Finish(s, p, outcome)
       case Start(v, marker) => s.(procs := s.procs[p := Refreshing(v, marker)]))
    case RefreshReturns(p, result) =>
      s.(procs := s.procs[p := Returned(ProcOf(s, p).start, ProcOf(s, p).marker, result)])
    case Commit(p, now, fault) =>
      CommitStep(s, p, ProcOf(s, p).start, ProcOf(s, p).result, now, fault)
    case LoginBegin(p) => s.(lock := Some(p), procs := s.procs[p := LoginHeld])
    case LoginWrite(p, v) => s.(cred := Some(v), procs := s.procs[p := LoginWritten])
    case LoginRecord(p, now, ok) =>
      if s.cred.None? || !ok then Finish(s, p, Unknown)
      else Finish(s.(record := Some(Record(GenerationOf(s.cred.value), Issued(s.nextEpoch), Repaired, now)),
                     nextEpoch := s.nextEpoch + 1), p, Repaired)
    case Succeed(success, now) =>
      if SuccessApplies(s, success) then s.(record := SuccessRecord(s.cred.value, s.record, now)) else s
    case OutsideWrite(cred) => s.(cred := cred)
    case Crash(p) =>
      s.(lock := if s.lock == Some(p) then None else s.lock, procs := s.procs[p := Idle])
  }

  // ---- Runs ----

  /** An event that is not enabled does not happen, so every sequence of events
      denotes a run. */
  function Next(s: State, e: Event): State {
    if Enabled(s, e) then Step(s, e) else s
  }

  function Exec(s: State, es: seq<Event>): State {
    if es == [] then s else Next(Exec(s, es[..|es| - 1]), es[|es| - 1])
  }

  /** A store nobody has used yet: any credential, no record. */
  predicate Init(s: State) {
    s.record.None? && s.lock.None? && s.procs == map[]
  }

  predicate WasIssued(s: State, epoch: Epoch) {
    epoch.Issued? ==> epoch.n < s.nextEpoch
  }

  predicate RejectedRecord(record: Option<Record>, g: Generation) {
    record.Some? && record.value.generation == g && record.value.outcome.Rejected?
  }

  predicate SoundProc(s: State, p: nat) {
    var q := ProcOf(s, p);
    && (q.HoldsLock() <==> s.lock == Some(p))
    && (q.InFlight() ==>
          && q.marker.generation == GenerationOf(q.start)
          && WasIssued(s, q.marker.epoch)
          && !RejectedRecord(s.record, GenerationOf(q.start)))
    && (q.Returned? && q.result.value.Some? ==> q.result.outcome.Repaired?)
  }

  /** The lock has exactly one holder, every recorded epoch was issued, and a
      refresh in flight began where no rejection stands against it. */
  ghost predicate Inv(s: State) {
    && (s.record.Some? ==> WasIssued(s, s.record.value.epoch))
    && (forall p: nat :: SoundProc(s, p))
  }

  lemma ActorKept(s: State, e: Event)
    requires Inv(s) && !e.Succeed? && !e.OutsideWrite?
    ensures SoundProc(Next(s, e), e.p)
  {
    assert SoundProc(s, e.p);
  }

  lemma OtherKept(s: State, e: Event, p: nat)
    requires Inv(s) && (e.Succeed? || e.OutsideWrite? || e.p != p)
    ensures SoundProc(Next(s, e), p)
  {
    assert SoundProc(s, p);
    if !e.Succeed? && !e.OutsideWrite? {
      assert SoundProc(s, e.p);
    }
  }

  lemma InvStep(s: State, e: Event)
    requires Inv(s)
    ensures Inv(Next(s, e))
  {
    forall p: nat
      ensures SoundProc(Next(s, e), p)
    {
      if e.Succeed? || e.OutsideWrite? || e.p != p {
        OtherKept(s, e, p);
      } else {
        ActorKept(s, e);
      }
    }
  }

  lemma {:induction false} InvRun(s: State, es: seq<Event>)
    requires Inv(s)
    ensures Inv(Exec(s, es))
  {
    if es != [] {
      InvRun(s, es[..|es| - 1]);
      InvStep(Exec(s, es[..|es| - 1]), es[|es| - 1]);
    }
  }

  lemma ExecNext(s: State, es: seq<Event>, k: nat)
    requires k < |es|
    ensures Exec(s, es[..k + 1]) == Next(Exec(s, es[..k]), es[k])
  {
    assert es[..k + 1][..k] == es[..k];
  }
}
