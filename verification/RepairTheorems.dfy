/** What every run of the repair protocol guarantees. */
module RepairTheorems {
  import opened Common
  import opened Repair

  // ---- At most one refresh per marker ----

  /** Event `e` makes its process start a refresh on behalf of marker `m`. */
  predicate Starts(s: State, e: Event, m: Marker) {
    e.Decide? && Enabled(s, e)
    && var d := DecisionOf(s, ProcOf(s, e.p).observed, e.now); d.Start? && d.marker == m
  }

  /** The lock holder is refreshing for `m`, or publishing a login. */
  predicate Guarded(s: State, m: Marker) {
    s.lock.Some? && var q := ProcOf(s, s.lock.value); q.LoginWritten? || (q.InFlight() && q.marker == m)
  }

  /** No request carrying `m` can start a refresh: its refresh or a login is
      under way, or requests carry another marker by now. */
  predicate Spent(s: State, m: Marker) {
    && WasIssued(s, m.epoch)
    && !(RejectedRecord(s.record, m.generation) && s.record.value.epoch == m.epoch)
    && (Guarded(s, m) || RequestGeneration(s) != Some(m))
  }

  /** What is stored once the commit of `q` has written its value. */
  function Written(s: State, q: Proc): Option<Value>
    requires q.Returned?
  {
    if q.result.value.Some? then q.result.value else s.cred
  }

  /** The events that leave a spent marker refreshable: a process dies or a write
      fails between a refresh or login and its record while `m` is what requests
      carry, or an outside write makes `m` what they carry again. */
  predicate Reopens(s: State, e: Event, m: Marker) {
    Enabled(s, e) &&
    match e
    case Crash(p) => s.lock == Some(p) && Guarded(s, m) && RequestGeneration(s) == Some(m)
    case Commit(p, _, fault) =>
      var q := ProcOf(s, p);
      && StillCurrent(s, q.start)
      && (if fault.ValueWriteFails? then q.result.value.Some? && q.marker == m && RequestGeneration(s) == Some(m)
          else fault.RecordWriteFails? && MarkerOf(Written(s, q).value, s.record) == m)
    case LoginRecord(_, _, ok) => !ok && RequestGeneration(s) == Some(m)
    case OutsideWrite(cred) => !Guarded(s, m) && cred.Some? && MarkerOf(cred.value, s.record) == m
    case _ => false
  }

  lemma StartSpends(s: State, e: Event, m: Marker)
    requires Inv(s) && Starts(s, e, m)
    ensures Spent(Next(s, e), m)
  {
    assert SoundProc(s, e.p);
  }

  lemma SpentBlocks(s: State, e: Event, m: Marker)
    requires Inv(s) && Spent(s, m)
    ensures !Starts(s, e, m)
  {
    if e.Decide? {
      assert SoundProc(s, e.p);
    }
  }

  /** A spent marker stays spent through exactly the events that do not reopen it. */
  lemma SpentExactly(s: State, e: Event, m: Marker)
    requires Inv(s) && Spent(s, m)
    ensures Spent(Next(s, e), m) <==> !Reopens(s, e, m)
  {
    if s.lock.Some? {
      assert SoundProc(s, s.lock.value);
    }
    if !e.Succeed? && !e.OutsideWrite? {
      assert SoundProc(s, e.p);
    }
  }

  /** Reopening is real: a later request carrying the marker refreshes again. */
  lemma ReopenedRefreshes(s: State, e: Event, m: Marker)
    requires Inv(s) && Spent(s, m) && Reopens(s, e, m)
    ensures exists now :: Refreshable(Next(s, e), m, now)
  {
    var t := Next(s, e);
    if !e.OutsideWrite? {
      assert SoundProc(s, e.p);
    }
    var now := if t.record.Some? then t.record.value.attemptedAt + RETRY_DELAY else 0;
    assert Refreshable(t, m, now);
  }

  /** At position `k` of the run the spent marker `m` becomes refreshable again. */
  predicate ReopensAt(s: State, es: seq<Event>, k: nat, m: Marker)
    requires k < |es|
  {
    var t := Exec(s, es[..k]);
    Spent(t, m) && Reopens(t, es[k], m)
  }

  lemma {:induction false} SpentRun(s: State, es: seq<Event>, i: nat, k: nat, m: Marker)
    requires Inv(s) && i < k <= |es| && Starts(Exec(s, es[..i]), es[i], m)
    requires forall j :: i < j < k ==> !ReopensAt(s, es, j, m)
    ensures Spent(Exec(s, es[..k]), m)
    decreases k
  {
    ExecNext(s, es, k - 1);
    InvRun(s, es[..k - 1]);
    if k == i + 1 {
      StartSpends(Exec(s, es[..i]), es[i], m);
    } else {
      SpentRun(s, es, i, k - 1, m);
      assert !ReopensAt(s, es, k - 1, m);
      SpentExactly(Exec(s, es[..k - 1]), es[k - 1], m);
    }
  }

  /** In every run two refreshes for one marker are separated by an event that
      reopens it: a lost record, or an outside write that restores it. */
  lemma OneRefreshPerMarker(s: State, es: seq<Event>, i: nat, j: nat, m: Marker)
    requires Inv(s) && i < j < |es|
    requires Starts(Exec(s, es[..i]), es[i], m) && Starts(Exec(s, es[..j]), es[j], m)
    ensures exists k :: i < k < j && ReopensAt(s, es, k, m)
  {
    if forall k :: i < k < j ==> !ReopensAt(s, es, k, m) {
      SpentRun(s, es, i, j, m);
      InvRun(s, es[..j]);
      SpentBlocks(Exec(s, es[..j]), es[j], m);
    }
  }

  /** A refresh in flight whose marker requests still carry. */
  predicate OutFor(s: State, p: nat, m: Marker) {
    ProcOf(s, p).InFlight() && ProcOf(s, p).marker == m && RequestGeneration(s) == Some(m)
  }

  /** The event ends the refresh of `p` without a record of the material it began with. */
  predicate LosesRecord(s: State, e: Event, p: nat) {
    || e == Crash(p)
    || (e.Commit? && e.p == p && ProcOf(s, p).Returned?
        && (if ProcOf(s, p).result.value.Some? then e.fault.ValueWriteFails? else e.fault.RecordWriteFails?))
  }

  /** The crash and failed-write cases are real: either one opens the marker of
      a refresh that was out. */
  lemma LostRecordReopens(s: State, e: Event, p: nat, m: Marker)
    requires Inv(s) && OutFor(s, p, m) && LosesRecord(s, e, p)
    ensures Reopens(s, e, m) && exists now :: Refreshable(Next(s, e), m, now)
  {
    assert SoundProc(s, p);
    ReopenedRefreshes(s, e, m);
  }

  /** So is the restoring write: other material replaces the credential while its
      refresh is out, the commit yields to it, and the old credential comes back. */
  lemma RestoringWriteReopens(s: State, p: nat, m: Marker, other: Option<Value>, at: int, fault: Fault)
    requires Inv(s) && OutFor(s, p, m) && ProcOf(s, p).Returned?
    requires other.Some? ==> GenerationOf(other.value) != m.generation
    ensures var t := Next(Next(s, OutsideWrite(other)), Commit(p, at, fault));
            Reopens(t, OutsideWrite(s.cred), m) && exists now :: Refreshable(Next(t, OutsideWrite(s.cred)), m, now)
  {
    assert SoundProc(s, p);
    var s1 := Next(s, OutsideWrite(other));
    InvStep(s, OutsideWrite(other));
    var t := Next(s1, Commit(p, at, fault));
    InvStep(s1, Commit(p, at, fault));
    assert t == Finish(s1, p, if other.None? then Unknown else Repaired);
    ReopenedRefreshes(t, OutsideWrite(s.cred), m);
  }

  /** And the login: one that publishes the same material but fails to record it
      leaves the marker requests carried before as it was. */
  lemma UnrecordedLoginReopens(s: State, p: nat, m: Marker, e: Event)
    requires Inv(s) && ProcOf(s, p).LoginWritten? && Spent(s, m) && RequestGeneration(s) == Some(m)
    requires e == Crash(p) || (e.LoginRecord? && e.p == p && !e.ok)
    ensures Reopens(s, e, m) && exists now :: Refreshable(Next(s, e), m, now)
  {
    assert SoundProc(s, p);
    ReopenedRefreshes(s, e, m);
  }

  /** A reported success never moves the marker requests carry. */
  lemma SuccessKeepsMarker(s: State, success: Success, now: int)
    ensures RequestGeneration(Next(s, Succeed(success, now))) == RequestGeneration(s)
  {
  }

  // ---- A crowd of repairers with the same marker ----

  /** Events of repairers in `crowd` alone, none of them faulty. */
  predicate CrowdEvent(e: Event, crowd: set<nat>, since: int) {
    match e
    case Acquire(p) => p in crowd
    case Decide(p, now) => p in crowd && since <= now
    case RefreshReturns(p, _) => p in crowd
    case Commit(p, _, fault) => p in crowd && fault.NoFault?
    case _ => false
  }

  /** A request carrying the current marker would start a refresh. */
  predicate Refreshable(s: State, m: Marker, now: int) {
    RequestGeneration(s) == Some(m) && DecisionOf(s, Some(m), now).Start?
  }

  ghost predicate StartsAny(s: State, e: Event) {
    exists m :: Starts(s, e, m)
  }

  ghost function StartCount(s: State, es: seq<Event>): nat {
    if es == [] then 0
    else StartCount(s, es[..|es| - 1]) + if StartsAny(Exec(s, es[..|es| - 1]), es[|es| - 1]) then 1 else 0
  }

  predicate Queued(s: State, p: nat, m: Marker) {
    ProcOf(s, p) == Waiting(Some(m)) || ProcOf(s, p) == Locked(Some(m))
  }

  /** Nobody has refreshed yet. */
  predicate Before(s: State, crowd: set<nat>, m: Marker, since: int) {
    && Refreshable(s, m, since)
    && forall p :: p in crowd ==> Queued(s, p, m)
  }

  /** One member holds the lock and is refreshing. */
  predicate During(s: State, crowd: set<nat>, m: Marker, q: nat) {
    && q in crowd && s.lock == Some(q) && ProcOf(s, q).InFlight()
    && StillCurrent(s, ProcOf(s, q).start)
    && WasIssued(s, m.epoch)
    && forall p :: p in crowd && p != q ==> Queued(s, p, m)
  }

  /** The refresh is recorded with outcome `o`. */
  predicate After(s: State, crowd: set<nat>, m: Marker, o: Outcome) {
    && s.cred.Some? && s.record.Some?
    && s.record.value.generation == GenerationOf(s.cred.value)
    && MarkerOf(s.cred.value, s.record) != m && s.record.value.epoch != m.epoch && s.record.value.outcome == o
    && forall p :: p in crowd ==> Queued(s, p, m) || ProcOf(s, p) == Done(o)
  }

  /** At position `k` of the run a refresh that is out returns `result`. */
  predicate ReturnsAt(s: State, es: seq<Event>, k: nat, result: Refresh) {
    k < |es| && es[k].RefreshReturns? && Enabled(Exec(s, es[..k]), es[k]) && es[k].result == result
  }

  predicate Told(s: State, es: seq<Event>, result: Refresh) {
    exists k :: 0 <= k < |es| && ReturnsAt(s, es, k, result)
  }

  ghost predicate CrowdInv(s: State, es: seq<Event>, crowd: set<nat>, m: Marker, since: int) {
    var t := Exec(s, es);
    || (Before(t, crowd, m, since) && StartCount(s, es) == 0)
    || (StartCount(s, es) == 1 && exists q: nat :: DuringTold(s, es, crowd, m, q))
    || (StartCount(s, es) == 1 && exists r: Refresh :: Told(s, es, r) && After(t, crowd, m, r.outcome))
  }

  ghost predicate DuringTold(s: State, es: seq<Event>, crowd: set<nat>, m: Marker, q: nat) {
    var t := Exec(s, es);
    During(t, crowd, m, q) && (ProcOf(t, q).Returned? ==> Told(s, es, ProcOf(t, q).result))
  }

  lemma ToldGrows(s: State, es: seq<Event>, r: Refresh)
    requires es != [] && Told(s, es[..|es| - 1], r)
    ensures Told(s, es, r)
  {
    var init := es[..|es| - 1];
    var k :| 0 <= k < |init| && ReturnsAt(s, init, k, r);
    assert init[..k] == es[..k];
    assert ReturnsAt(s, es, k, r);
  }

  lemma BeforeStep(s: State, e: Event, crowd: set<nat>, m: Marker, since: int)
    requires Inv(s) && CrowdEvent(e, crowd, since) && Before(s, crowd, m, since)
    ensures if StartsAny(s, e) then During(Next(s, e), crowd, m, e.p) && ProcOf(Next(s, e), e.p).Refreshing?
            else Before(Next(s, e), crowd, m, since)
  {
    assert Queued(s, e.p, m);
    assert SoundProc(s, e.p);
    if e.Decide? && Enabled(s, e) {
      assert Starts(s, e, m);
    }
  }

  lemma DuringStep(s: State, e: Event, crowd: set<nat>, m: Marker, since: int, q: nat)
    requires Inv(s) && CrowdEvent(e, crowd, since) && During(s, crowd, m, q)
    ensures !StartsAny(s, e)
    ensures if e.Commit? && Enabled(s, e) then After(Next(s, e), crowd, m, ProcOf(s, q).result.outcome) && e.p == q
            else During(Next(s, e), crowd, m, q)
                 && (ProcOf(Next(s, e), q) == ProcOf(s, q)
                     || (e.RefreshReturns? && Enabled(s, e)
                         && ProcOf(Next(s, e), q).Returned? && ProcOf(Next(s, e), q).result == e.result))
  {
    assert SoundProc(s, e.p);
    assert SoundProc(s, q);
  }

  lemma AfterStep(s: State, e: Event, crowd: set<nat>, m: Marker, since: int, o: Outcome)
    requires Inv(s) && CrowdEvent(e, crowd, since) && After(s, crowd, m, o)
    ensures After(Next(s, e), crowd, m, o) && !StartsAny(s, e)
  {
    assert Queued(s, e.p, m) || ProcOf(s, e.p) == Done(o);
  }

  lemma {:induction false} CrowdRun(s: State, es: seq<Event>, crowd: set<nat>, m: Marker, since: int)
    requires Inv(s) && Before(s, crowd, m, since)
    requires forall k :: 0 <= k < |es| ==> CrowdEvent(es[k], crowd, since)
    ensures CrowdInv(s, es, crowd, m, since)
  {
    if es != [] {
      var init, e := es[..|es| - 1], es[|es| - 1];
      CrowdRun(s, init, crowd, m, since);
      InvRun(s, init);
      var t := Exec(s, init);
      if Before(t, crowd, m, since) && StartCount(s, init) == 0 {
        BeforeStep(t, e, crowd, m, since);
        if StartsAny(t, e) {
          assert DuringTold(s, es, crowd, m, e.p);
        }
      } else if q: nat :| DuringTold(s, init, crowd, m, q) {
        DuringStep(t, e, crowd, m, since, q);
        if ProcOf(t, q).Returned? {
          ToldGrows(s, es, ProcOf(t, q).result);
        }
        if e.RefreshReturns? && Enabled(t, e) {
          assert ReturnsAt(s, es, |init|, e.result);
        }
        if !(e.Commit? && Enabled(t, e)) {
          assert DuringTold(s, es, crowd, m, q);
        }
      } else {
        var r: Refresh :| Told(s, init, r) && After(t, crowd, m, r.outcome);
        AfterStep(t, e, crowd, m, since, r.outcome);
        ToldGrows(s, es, r);
      }
    }
  }

  /** When any number of repairers carry the current marker and nothing else
      intervenes, exactly one refreshes and every one of them returns that
      refresh's outcome. */
  lemma CrowdRefreshesOnce(s: State, es: seq<Event>, crowd: set<nat>, m: Marker, since: int)
    requires Inv(s) && Refreshable(s, m, since)
    requires crowd != {} && forall p :: p in crowd ==> ProcOf(s, p) == Waiting(Some(m))
    requires forall k :: 0 <= k < |es| ==> CrowdEvent(es[k], crowd, since)
    requires forall p :: p in crowd ==> ProcOf(Exec(s, es), p).Done?
    ensures StartCount(s, es) == 1
    ensures exists r: Refresh ::
              Told(s, es, r) && forall p :: p in crowd ==> ProcOf(Exec(s, es), p) == Done(r.outcome)
  {
    CrowdRun(s, es, crowd, m, since);
    var t := Exec(s, es);
    var p :| p in crowd;
    assert ProcOf(t, p).Done?;
    assert !Queued(t, p, m);
    forall q: nat
      ensures !DuringTold(s, es, crowd, m, q)
    {
    }
    var r: Refresh :| Told(s, es, r) && After(t, crowd, m, r.outcome);
    forall p | p in crowd
      ensures ProcOf(t, p) == Done(r.outcome)
    {
      assert ProcOf(t, p).Done?;
    }
  }

  // ---- What callers are told ----

  /** The repair record speaks about the credential that is stored. */
  predicate OnRecord(s: State, outcome: Outcome) {
    s.cred.Some? && s.record.Some? && s.record.value.generation == GenerationOf(s.cred.value)
    && s.record.value.outcome == outcome
  }

  /** Requests still carry `observed`, or by now another marker. */
  predicate Carried(s: State, observed: Option<Marker>) {
    observed.Some? && RequestGeneration(s) == observed
  }

  predicate Superseded(s: State, observed: Option<Marker>) {
    observed.Some? && s.cred.Some? && RequestGeneration(s) != observed
  }

  /** Every answer of a repairer that has the lock, and when it refreshes
      instead: rejected exactly when it carries a marker and the account reads
      signed out; repaired exactly when its marker was superseded and nothing
      but a repair is on record; a refresh exactly when its marker is the current
      one, no rejection stands and no failed attempt is younger than five seconds. */
  lemma DecideAnswers(s: State, p: nat, now: int)
    requires Enabled(s, Decide(p, now))
    ensures var observed := ProcOf(s, p).observed;
            var t := Next(s, Decide(p, now));
            var after := ProcOf(t, p);
            var tooSoon := OnRecord(s, Unknown) && now - s.record.value.attemptedAt < 5;
            && t.cred == s.cred && t.record == s.record
            && (after == Done(Rejected) <==> observed.Some? && AvailabilityOf(s).Unauthenticated?)
            && (after == Done(Repaired) <==> Superseded(s, observed) && !OnRecord(s, Rejected) && !OnRecord(s, Unknown))
            && (after.Refreshing? <==> Carried(s, observed) && !OnRecord(s, Rejected) && !tooSoon)
            && (after.Refreshing? ==> after == Refreshing(s.cred.value, observed.value))
            && (after == Done(Unknown) <==> || observed.None? || s.cred.None?
                                            || (Superseded(s, observed) && OnRecord(s, Unknown))
                                            || (Carried(s, observed) && tooSoon))
            && (after.Done? <==> !after.Refreshing?) && (after.Done? ==> t.lock.None?)
  {
  }

  /** The three readings, from the record on the stored material. */
  lemma ReadingsAreOnRecord(s: State)
    ensures AvailabilityOf(s).Authenticated? <==> OnRecord(s, Repaired)
    ensures AvailabilityOf(s).Unauthenticated? <==> OnRecord(s, Rejected)
  {
  }

  /** The marker a process in the middle of a repair works for. */
  function WorksFor(q: Proc): Option<Marker> {
    if q.Waiting? || q.Locked? then q.observed else if q.InFlight() then Some(q.marker) else None
  }

  /** Event `e` makes `p` answer `outcome`. */
  predicate Answers(s: State, e: Event, p: nat, outcome: Outcome) {
    ProcOf(Next(s, e), p) == Done(outcome) && ProcOf(s, p) != Done(outcome)
  }

  /** Answers are true when they are given. Whoever is told `Rejected` finds the
      account signed out; a repairer told `Repaired` finds a credential under
      another marker than the one it works for; giving up on the lock is answered
      `Unknown` and changes nothing else. */
  lemma AnswersAreEarned(s: State, e: Event, p: nat)
    requires Inv(s)
    ensures Answers(s, e, p, Rejected) ==> AvailabilityOf(Next(s, e)).Unauthenticated?
    ensures Answers(s, e, p, Repaired) && WorksFor(ProcOf(s, p)).Some? ==>
              Superseded(Next(s, e), WorksFor(ProcOf(s, p)))
    ensures Answers(s, e, p, Repaired) && WorksFor(ProcOf(s, p)).None? ==>
              e.LoginRecord? && AvailabilityOf(Next(s, e)).Authenticated?
    ensures e.GiveUp? && Enabled(s, e) ==> Next(s, e) == s.(procs := s.procs[e.p := Done(Unknown)])
    ensures e.LoginRecord? && Enabled(s, e) ==>
              ProcOf(Next(s, e), e.p) == Done(if e.ok && s.cred.Some? then Repaired else Unknown)
  {
    assert SoundProc(s, p);
    if !e.Succeed? && !e.OutsideWrite? {
      assert SoundProc(s, e.p);
    }
  }

  /** A yielding commit answers `Repaired` whatever it yields to: exactly when the
      material that replaced its own has a rejection on record is the account
      signed out all the same. */
  lemma YieldMayMislead(s: State, p: nat, now: int, fault: Fault)
    requires Inv(s) && ProcOf(s, p).Returned? && s.cred.Some? && !StillCurrent(s, ProcOf(s, p).start)
    ensures var t := Next(s, Commit(p, now, fault));
            && ProcOf(t, p) == Done(Repaired)
            && (AvailabilityOf(t).Unauthenticated? <==> OnRecord(s, Rejected))
  {
  }

  /** A recorded outcome is what the account then reads: a repair signed in, a
      rejection signed out, an unknown outcome unproven. */
  lemma CommitReading(s: State, p: nat, now: int)
    requires Inv(s) && ProcOf(s, p).Returned? && StillCurrent(s, ProcOf(s, p).start)
    ensures var t, outcome := Next(s, Commit(p, now, NoFault)), ProcOf(s, p).result.outcome;
            && (AvailabilityOf(t).Authenticated? <==> outcome.Repaired?)
            && (AvailabilityOf(t).Unauthenticated? <==> outcome.Rejected?)
            && (AvailabilityOf(t).Unproven? <==> outcome.Unknown?)
            && ProcOf(t, p) == Done(outcome)
  {
  }

  /** The report is about what is stored: a probe names the stored access token,
      a request the marker requests carry, a login needs a credential only. */
  predicate AboutStored(s: State, success: Success) {
    match success
    case ByAccess(access) => s.cred.Some? && s.cred.value.access == access
    case ByRequest(marker) => RequestGeneration(s) == Some(marker)
    case AfterLogin => s.cred.Some?
  }

  /** Exactly which reported successes are recorded: those about what is stored,
      unless it was rejected; only the login flow's does not wait for the lock.
      They sign the account in; all others change nothing. */
  lemma SuccessCounts(s: State, success: Success, now: int)
    ensures var t := Next(s, Succeed(success, now));
            if AboutStored(s, success) && !AvailabilityOf(s).Unauthenticated? && (s.lock.None? || success.AfterLogin?)
            then AvailabilityOf(t).Authenticated? && t.record.value.attemptedAt == now && t == s.(record := t.record)
            else t == s
  {
  }

  // ---- Rejections ----

  /** At position `k` a refresh that began at generation `g` comes back rejected. */
  predicate RejectedAt(s: State, es: seq<Event>, k: nat, g: Generation) {
    && k < |es| && es[k].RefreshReturns? && es[k].result.outcome.Rejected?
    && Enabled(Exec(s, es[..k]), es[k])
    && GenerationOf(ProcOf(Exec(s, es[..k]), es[k].p).start) == g
  }

  ghost predicate RejectionSeen(s: State, es: seq<Event>, g: Generation) {
    exists k :: 0 <= k < |es| && RejectedAt(s, es, k, g)
  }

  lemma RejectionStaysSeen(s: State, es: seq<Event>, g: Generation)
    requires es != [] && RejectionSeen(s, es[..|es| - 1], g)
    ensures RejectionSeen(s, es, g)
  {
    var init := es[..|es| - 1];
    var k :| 0 <= k < |init| && RejectedAt(s, init, k, g);
    assert init[..k] == es[..k];
    assert RejectedAt(s, es, k, g);
  }

  /** Every rejection the state still speaks of was earned by a refresh. */
  ghost predicate Earned(s: State, es: seq<Event>) {
    var t := Exec(s, es);
    && (forall g :: RejectedRecord(t.record, g) ==> RejectionSeen(s, es, g))
    && (forall p: nat :: ProcOf(t, p).Returned? && ProcOf(t, p).result.outcome.Rejected? ==>
          RejectionSeen(s, es, GenerationOf(ProcOf(t, p).start)))
  }

  lemma {:induction false} RejectionsAreEarned(s: State, es: seq<Event>)
    requires Init(s)
    ensures Inv(Exec(s, es)) && Earned(s, es)
  {
    if es != [] {
      var init, e := es[..|es| - 1], es[|es| - 1];
      RejectionsAreEarned(s, init);
      var t := Exec(s, init);
      InvStep(t, e);
      forall g | RejectionSeen(s, init, g)
        ensures RejectionSeen(s, es, g)
      {
        RejectionStaysSeen(s, es, g);
      }
      if e.Commit? {
        assert SoundProc(t, e.p);
      }
      forall p: nat | ProcOf(Exec(s, es), p).Returned? && ProcOf(Exec(s, es), p).result.outcome.Rejected?
        ensures RejectionSeen(s, es, GenerationOf(ProcOf(Exec(s, es), p).start))
      {
        if e.RefreshReturns? && Enabled(t, e) && e.p == p {
          assert RejectedAt(s, es, |es| - 1, GenerationOf(ProcOf(t, p).start));
        } else {
          assert ProcOf(t, p) == ProcOf(Exec(s, es), p);
        }
      }
    }
  }

  /** Signed out means refused: in every reachable state the account reads as
      unauthenticated only if a refresh of exactly this credential was rejected. */
  lemma UnauthenticatedOnlyByRejection(s: State, es: seq<Event>)
    requires Init(s) && AvailabilityOf(Exec(s, es)).Unauthenticated?
    ensures RejectionSeen(s, es, GenerationOf(Exec(s, es).cred.value))
  {
    RejectionsAreEarned(s, es);
  }

  /** The events that lift a rejection: a login that stores other material or is
      recorded, or an outside write of other material. */
  predicate Lifts(s: State, e: Event) {
    Enabled(s, e) &&
    match e
    case LoginWrite(_, v) => !StillCurrent(s, v)
    case LoginRecord(_, _, ok) => ok
    case OutsideWrite(cred) => cred.None? || !StillCurrent(s, cred.value)
    case _ => false
  }

  lemma StickyStep(s: State, e: Event)
    requires Inv(s) && AvailabilityOf(s).Unauthenticated?
    ensures AvailabilityOf(Next(s, e)).Unauthenticated? <==> !Lifts(s, e)
    ensures !Lifts(s, e) ==> Next(s, e).record == s.record
  {
    if e.Commit? {
      assert SoundProc(s, e.p);
    }
  }

  /** The account reads as signed out after every step of the run. */
  ghost predicate StaysOut(s: State, es: seq<Event>) {
    forall k :: 0 <= k <= |es| ==> OutAt(s, es, k)
  }

  predicate OutAt(s: State, es: seq<Event>, k: nat)
    requires k <= |es|
  {
    AvailabilityOf(Exec(s, es[..k])).Unauthenticated?
  }

  /** No step of the run lifts the rejection. */
  ghost predicate NeverLifted(s: State, es: seq<Event>) {
    forall k :: 0 <= k < |es| ==> !LiftsAt(s, es, k)
  }

  predicate LiftsAt(s: State, es: seq<Event>, k: nat)
    requires k < |es|
  {
    Lifts(Exec(s, es[..k]), es[k])
  }

  lemma SignedOutInit(s: State, es: seq<Event>)
    requires es != []
    ensures var init := es[..|es| - 1];
            && (StaysOut(s, es) <==> StaysOut(s, init) && OutAt(s, es, |es|))
            && (NeverLifted(s, es) <==> NeverLifted(s, init) && !LiftsAt(s, es, |init|))
  {
    var init := es[..|es| - 1];
    forall k | 0 <= k <= |init|
      ensures OutAt(s, init, k) <==> OutAt(s, es, k)
      ensures k < |init| ==> (LiftsAt(s, init, k) <==> LiftsAt(s, es, k))
    {
      assert init[..k] == es[..k];
    }
  }

  /** A rejection outlives every late success, repair, retry, failed write and
      crash: it stands, with its record, through exactly the runs in which no
      login is recorded and no other material is stored. */
  lemma {:induction false} RejectionIsSticky(s: State, es: seq<Event>)
    requires Inv(s) && AvailabilityOf(s).Unauthenticated?
    ensures StaysOut(s, es) <==> NeverLifted(s, es)
    ensures NeverLifted(s, es) ==> Exec(s, es).record == s.record
  {
    if es == [] {
      assert es[..0] == es;
    } else {
      var init, e := es[..|es| - 1], es[|es| - 1];
      RejectionIsSticky(s, init);
      SignedOutInit(s, es);
      assert es[..|es|] == es;
      if StaysOut(s, init) {
        assert OutAt(s, init, |init|) && init[..|init|] == init;
        InvRun(s, init);
        StickyStep(Exec(s, init), e);
      }
    }
  }

  /** A recorded login ends a rejection even when it stores the same tokens. */
  lemma LoginLiftsRejection(s: State, p: nat, now: int)
    requires Inv(s) && ProcOf(s, p).LoginWritten? && s.cred.Some?
    ensures AvailabilityOf(Next(s, LoginRecord(p, now, true))).Authenticated?
    ensures RequestGeneration(Next(s, LoginRecord(p, now, true))) != RequestGeneration(s)
  {
  }

  // ---- Newer writes win ----

  /** The position of the last refresh `p` started, or -1. */
  ghost function StartIndex(s: State, es: seq<Event>, p: nat): (i: int)
    ensures -1 <= i < |es|
  {
    if es == [] then -1
    else if StartedBy(Exec(s, es[..|es| - 1]), es[|es| - 1], p) then |es| - 1
    else StartIndex(s, es[..|es| - 1], p)
  }

  /** What outside writers left: the content of the last outside write, else `c`. */
  function LastOutside(es: seq<Event>, c: Option<Value>): Option<Value> {
    if es == [] then c
    else if es[|es| - 1].OutsideWrite? then es[|es| - 1].cred
    else LastOutside(es[..|es| - 1], c)
  }

  /** The credential as the last refresh of `p` found it. */
  ghost function Found(s: State, es: seq<Event>, p: nat): Option<Value> {
    var i := StartIndex(s, es, p);
    if i < 0 then None else Exec(s, es[..i]).cred
  }

  /** The newest outside content since that refresh began. */
  ghost function NewestSince(s: State, es: seq<Event>, p: nat): Option<Value> {
    LastOutside(es[StartIndex(s, es, p) + 1..], Found(s, es, p))
  }

  ghost predicate StartedBy(t: State, e: Event, p: nat) {
    e.Decide? && e.p == p && StartsAny(t, e)
  }

  lemma InFlightStep(t: State, e: Event, p: nat)
    requires Inv(t) && ProcOf(Next(t, e), p).InFlight()
    ensures StartedBy(t, e, p) ==> t.cred == Next(t, e).cred == Some(ProcOf(Next(t, e), p).start)
    ensures !StartedBy(t, e, p) ==>
              && ProcOf(t, p).InFlight() && ProcOf(t, p).start == ProcOf(Next(t, e), p).start
              && Next(t, e).cred == (if e.OutsideWrite? then e.cred else t.cred)
  {
    assert SoundProc(t, p);
    if !e.Succeed? && !e.OutsideWrite? {
      assert SoundProc(t, e.p);
    }
    if e.Decide? && Enabled(t, e) {
      var d := DecisionOf(t, ProcOf(t, e.p).observed, e.now);
      assert d.Start? ==> Starts(t, e, d.marker);
    }
  }

  lemma {:induction false} RefreshHistory(s: State, es: seq<Event>, p: nat)
    requires Init(s) && ProcOf(Exec(s, es), p).InFlight()
    ensures Found(s, es, p) == Some(ProcOf(Exec(s, es), p).start)
    ensures NewestSince(s, es, p) == Exec(s, es).cred
  {
    var init, e := es[..|es| - 1], es[|es| - 1];
    var t := Exec(s, init);
    InvRun(s, init);
    InFlightStep(t, e, p);
    if StartedBy(t, e, p) {
      assert es[|es|..] == [];
    } else {
      RefreshHistory(s, init, p);
      var i := StartIndex(s, init, p);
      assert init[..i] == es[..i];
      assert es[i + 1..][..|es| - 1 - (i + 1)] == init[i + 1..];
    }
  }

  /** While a refresh is out only outside writers touch the store; the commit
      then publishes exactly when the newest of them left the generation the
      refresh began with, up to the write that fails, and otherwise changes
      neither file. */
  lemma CommitHonoursNewerWrites(s: State, es: seq<Event>, p: nat, now: int, fault: Fault)
    requires Init(s) && Enabled(Exec(s, es), Commit(p, now, fault))
    ensures
      var before := Exec(s, es);
      var after := Next(before, Commit(p, now, fault));
      var found, newest := Found(s, es, p), NewestSince(s, es, p);
      var result := ProcOf(before, p).result;
      && found.Some? && before.cred == newest
      && (if newest.Some? && GenerationOf(newest.value) == GenerationOf(found.value)
          then
            var valueFails := result.value.Some? && fault.ValueWriteFails?;
            var recorded := !valueFails && !fault.RecordWriteFails?;
            && after.cred == (if result.value.Some? && !valueFails then result.value else newest)
            && (if recorded
                then
                  && after.record.Some? && after.record.value.generation == GenerationOf(after.cred.value)
                  && after.record.value.epoch == Issued(before.nextEpoch)
                  && after.record.value.outcome == result.outcome && after.record.value.attemptedAt == now
                else after.record == before.record)
            && ProcOf(after, p) == Done(if recorded then result.outcome else Unknown)
          else
            && after.cred == newest && after.record == before.record
            && ProcOf(after, p) == Done(if newest.Some? then Repaired else Unknown))
  {
    RefreshHistory(s, es, p);
  }

  /** The write a reader should see, told from the history alone. */
  ghost function LatestWrite(s: State, es: seq<Event>): Option<Value> {
    if es == [] then s.cred else
    var init, e := es[..|es| - 1], es[|es| - 1];
    match e
    case OutsideWrite(cred) => cred
    case LoginWrite(p, v) => if Enabled(Exec(s, init), e) then Some(v) else LatestWrite(s, init)
    case Commit(p, _, fault) =>
      if Enabled(Exec(s, init), e) && Uncontested(s, init, p) && !fault.ValueWriteFails?
         && ProcOf(Exec(s, init), p).result.value.Some?
      then ProcOf(Exec(s, init), p).result.value else LatestWrite(s, init)
    case _ => LatestWrite(s, init)
  }

  /** No outside write since the refresh began changed the token material. */
  ghost predicate Uncontested(s: State, es: seq<Event>, p: nat) {
    var found, newest := Found(s, es, p), NewestSince(s, es, p);
    found.Some? && newest.Some? && GenerationOf(newest.value) == GenerationOf(found.value)
  }

  /** Over any run the store holds the latest outside, login or uncontested refresh write. */
  lemma {:induction false} StoredIsLatestWrite(s: State, es: seq<Event>)
    requires Init(s)
    ensures Exec(s, es).cred == LatestWrite(s, es)
  {
    if es != [] {
      var init, e := es[..|es| - 1], es[|es| - 1];
      StoredIsLatestWrite(s, init);
      if e.Commit? && Enabled(Exec(s, init), e) {
        RefreshHistory(s, init, e.p);
      }
    }
  }

  lemma ExecSnoc(s: State, es: seq<Event>, e: Event)
    ensures Exec(s, es + [e]) == Next(Exec(s, es), e)
  {
    assert (es + [e])[..|es|] == es;
  }

  /** One repairer finds `v` and starts its refresh. */
  function RefreshOut(v: Value): seq<Event> {
    [] + [Request(0, Some(Marker(GenerationOf(v), Initial)))] + [Acquire(0)] + [Decide(0, 0)]
  }

  lemma RefreshIsOut(v: Value)
    ensures Exec(State(Some(v), None, None, map[], 0), RefreshOut(v))
            == State(Some(v), None, Some(0), map[0 := Refreshing(v, Marker(GenerationOf(v), Initial))], 0)
  {
    var s := State(Some(v), None, None, map[], 0);
    var m := Marker(GenerationOf(v), Initial);
    ExecSnoc(s, [], Request(0, Some(m)));
    assert Exec(s, [] + [Request(0, Some(m))]) == State(Some(v), None, None, map[0 := Waiting(Some(m))], 0);
    ExecSnoc(s, [] + [Request(0, Some(m))], Acquire(0));
    ExecSnoc(s, [] + [Request(0, Some(m))] + [Acquire(0)], Decide(0, 0));
  }

  /** While that refresh is out, an outside writer stores `outside`. */
  function ContestedRun(v: Value, outside: Value, renewed: Value): seq<Event> {
    RefreshOut(v) + [OutsideWrite(Some(outside))]
    + [RefreshReturns(0, Refresh(Repaired, Some(renewed)))] + [Commit(0, 0, NoFault)]
  }

  /** The generation covers only the token material: an outside write that
      changes nothing else is overwritten by the refresh already out, while one
      that changes the material survives it. */
  lemma OtherDataIsOverwritten(v: Value, outside: Value, renewed: Value)
    ensures var s := State(Some(v), None, None, map[], 0);
            Init(s) && Exec(s, ContestedRun(v, outside, renewed)).cred
                       == Some(if outside.access == v.access && outside.refresh == v.refresh then renewed else outside)
  {
    var s := State(Some(v), None, None, map[], 0);
    var m := Marker(GenerationOf(v), Initial);
    var result := Refresh(Repaired, Some(renewed));
    RefreshIsOut(v);
    var es := RefreshOut(v);
    ExecSnoc(s, es, OutsideWrite(Some(outside)));
    ExecSnoc(s, es + [OutsideWrite(Some(outside))], RefreshReturns(0, result));
    assert Exec(s, es + [OutsideWrite(Some(outside))] + [RefreshReturns(0, result)])
        == State(Some(outside), None, Some(0), map[0 := Returned(v, m, result)], 0);
    ExecSnoc(s, es + [OutsideWrite(Some(outside))] + [RefreshReturns(0, result)], Commit(0, 0, NoFault));
  }

  // ---- Why commits and success records are one action ----

  /** The two writes of a commit that has passed its check, taken apart. */
  function WriteValue(s: State, result: Refresh): State {
    if result.value.Some? then s.(cred := result.value) else s
  }

  function WriteOutcome(s: State, p: nat, result: Refresh, now: int): State {
    if s.cred.None? then Finish(s, p, Unknown)
    else Finish(s.(record := Some(Record(GenerationOf(s.cred.value), Issued(s.nextEpoch), result.outcome, now)),
                   nextEpoch := s.nextEpoch + 1), p, result.outcome)
  }

  predicate AllOutside(es: seq<Event>) {
    forall k :: 0 <= k < |es| ==> es[k].OutsideWrite?
  }

  lemma {:induction false} OutsideOnly(s: State, es: seq<Event>)
    requires AllOutside(es)
    ensures Exec(s, es) == s.(cred := LastOutside(es, s.cred))
  {
    if es != [] {
      OutsideOnly(s, es[..|es| - 1]);
    }
  }

  /** Outside writes inside a commit, before its value (`early`) and between value
      and outcome (`late`): with none it is `Publish`; otherwise a refreshed value
      overwrites every early write, and the outcome is recorded against whatever
      the last late write left, a rejection signing that out. */
  lemma CommitWindow(s: State, p: nat, result: Refresh, now: int, early: seq<Event>, late: seq<Event>)
    requires s.cred.Some? && AllOutside(early) && AllOutside(late)
    ensures WriteOutcome(WriteValue(s, result), p, result, now) == Publish(s, p, result, now, NoFault)
    ensures var raced := WriteOutcome(Exec(WriteValue(Exec(s, early), result), late), p, result, now);
            && raced.cred == LastOutside(late, if result.value.Some? then result.value else LastOutside(early, s.cred))
            && (raced.cred.Some? ==>
                  && raced.record.Some? && raced.record.value.outcome == result.outcome
                  && raced.record.value.generation == GenerationOf(raced.cred.value)
                  && (result.outcome.Rejected? <==> AvailabilityOf(raced).Unauthenticated?))
  {
    OutsideOnly(s, early);
    OutsideOnly(WriteValue(Exec(s, early), result), late);
  }

  /** A success that has read `s` goes on to write a record. */
  predicate SuccessWrites(s: State) {
    s.cred.Some? && !AvailabilityOf(s).Unauthenticated?
  }

  /** The run `es` happens between the read and the write of a success. */
  function Raced(s: State, es: seq<Event>, now: int): State {
    var t := Exec(s, es);
    if SuccessWrites(s) then t.(record := SuccessRecord(s.cred.value, s.record, now)) else t
  }

  /** The marker requests carry after that write: the one the success read while
      its material is still stored, the initial one of any other material. */
  function RacedMarker(s: State, t: State): Option<Marker>
    requires s.cred.Some?
  {
    if t.cred.None? then None
    else if StillCurrent(t, s.cred.value) then RequestGeneration(s)
    else Some(Marker(GenerationOf(t.cred.value), Initial))
  }

  /** Whatever ran in between, the late write replaces the whole record. The
      account reads as signed in if the material read is still the stored one
      and as unproven otherwise, and requests carry `RacedMarker`. */
  lemma SuccessWindow(s: State, es: seq<Event>, now: int)
    requires SuccessWrites(s)
    ensures var t, raced := Exec(s, es), Raced(s, es, now);
            && raced.cred == t.cred && RequestGeneration(raced) == RacedMarker(s, t)
            && AvailabilityOf(raced) == if StillCurrent(t, s.cred.value) then Authenticated else Unproven
  {
  }

  /** Exactly when that loses a rejection: one recorded in between survives if
      and only if the success read no credential or an earlier rejection of it,
      whether or not the material changed. */
  lemma RejectionSurvivesWindow(s: State, es: seq<Event>, now: int)
    requires AvailabilityOf(Exec(s, es)).Unauthenticated?
    ensures AvailabilityOf(Raced(s, es, now)).Unauthenticated? <==> !SuccessWrites(s)
  {
    if SuccessWrites(s) {
      SuccessWindow(s, es, now);
    }
  }

  /** Exactly when it reopens a spent marker: the success writes, the marker is
      the one that write restores, and no refresh for it or login is under way.
      Any later request carrying the marker then refreshes again. */
  lemma SuccessWindowReopens(s: State, es: seq<Event>, now: int, m: Marker)
    requires Inv(s) && Spent(Exec(s, es), m)
    ensures var t, raced := Exec(s, es), Raced(s, es, now);
            && (Spent(raced, m) <==> !(SuccessWrites(s) && !Guarded(t, m) && RacedMarker(s, t) == Some(m)))
            && (!Spent(raced, m) ==> forall at :: Refreshable(raced, m, at))
  {
    InvRun(s, es);
    if SuccessWrites(s) {
      SuccessWindow(s, es, now);
    }
  }

  lemma {:induction false} ExecAppend(s: State, a: seq<Event>, b: seq<Event>)
    ensures Exec(s, a + b) == Exec(Exec(s, a), b)
  {
    if b == [] {
      assert a + b == a;
    } else {
      assert (a + b)[..|a + b| - 1] == a + b[..|b| - 1];
      ExecAppend(s, a, b[..|b| - 1]);
    }
  }

  /** While a success stands between its read and its write, `v2` is stored, and
      its refresh is rejected and recorded. */
  function RejectingRun(v2: Value): seq<Event> {
    [OutsideWrite(Some(v2))] + RejectedRefresh(v2)
  }

  function RejectedRefresh(v: Value): seq<Event> {
    RefreshOut(v) + [RefreshReturns(0, Refresh(Rejected, None))] + [Commit(0, 0, NoFault)]
  }

  lemma RefreshIsRejected(v: Value)
    ensures Exec(State(Some(v), None, None, map[], 0), RejectedRefresh(v))
            == State(Some(v), Some(Record(GenerationOf(v), Issued(0), Rejected, 0)), None, map[0 := Done(Rejected)], 1)
  {
    var s := State(Some(v), None, None, map[], 0);
    var m, result, out := Marker(GenerationOf(v), Initial), Refresh(Rejected, None), RefreshOut(v);
    RefreshIsOut(v);
    ExecSnoc(s, out, RefreshReturns(0, result));
    assert Exec(s, out + [RefreshReturns(0, result)])
        == State(Some(v), None, Some(0), map[0 := Returned(v, m, result)], 0);
    ExecSnoc(s, out + [RefreshReturns(0, result)], Commit(0, 0, NoFault));
  }

  lemma RejectedState(v1: Value, v2: Value)
    ensures Exec(State(Some(v1), None, None, map[], 0), RejectingRun(v2))
            == State(Some(v2), Some(Record(GenerationOf(v2), Issued(0), Rejected, 0)), None,
                     map[0 := Done(Rejected)], 1)
  {
    var s := State(Some(v1), None, None, map[], 0);
    ExecAppend(s, [OutsideWrite(Some(v2))], RejectedRefresh(v2));
    ExecNext(s, [OutsideWrite(Some(v2))], 0);
    assert [OutsideWrite(Some(v2))][..1] == [OutsideWrite(Some(v2))];
    RefreshIsRejected(v2);
  }

  /** Both losses happen, with the material unchanged or not: the run signs the
      account out and spends the marker; the late write undoes both, while the
      same success as one action keeps the rejection. */
  lemma SuccessOverwritesRejection(v1: Value, v2: Value, now: int)
    ensures var s, es := State(Some(v1), None, None, map[], 0), RejectingRun(v2);
            var t, m := Exec(s, es), Marker(GenerationOf(v2), Initial);
            && Init(s) && AvailabilityOf(t).Unauthenticated? && Spent(t, m)
            && AvailabilityOf(Next(t, Succeed(AfterLogin, now))).Unauthenticated?
            && !AvailabilityOf(Raced(s, es, now)).Unauthenticated?
            && forall at :: Refreshable(Raced(s, es, now), m, at)
  {
    var s, es := State(Some(v1), None, None, map[], 0), RejectingRun(v2);
    RejectedState(v1, v2);
    RejectionSurvivesWindow(s, es, now);
    SuccessWindowReopens(s, es, now, Marker(GenerationOf(v2), Initial));
  }

  // ---- Marker text ----

  /** A marker is written `generation:epoch`. */
  function MarkerText(generation: string, epoch: string): string {
    generation + ":" + epoch
  }

  /** A fingerprint is hexadecimal, so equal texts are equal markers. */
  lemma MarkerTextInjective(g1: string, e1: string, g2: string, e2: string)
    requires ':' !in g1 && ':' !in g2
    ensures MarkerText(g1, e1) == MarkerText(g2, e2) <==> g1 == g2 && e1 == e2
  {
    if MarkerText(g1, e1) == MarkerText(g2, e2) {
      var t := MarkerText(g1, e1);
      assert t[|g1|] == ':' && t[|g2|] == ':';
      assert forall i :: 0 <= i < |g1| ==> t[i] == g1[i];
      assert forall i :: 0 <= i < |g2| ==> t[i] == g2[i];
      assert t[..|g1|] == g1 && t[..|g2|] == g2;
      assert t[|g1| + 1..] == e1 && t[|g2| + 1..] == e2;
    }
  }
}
