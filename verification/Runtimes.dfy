/**
 Runtime directories of src/credentials.rs: creation under an allocation lock,
 one lock file per directory, sweeps that reclaim what dead routers left.

 Every system call another process can observe is its own event, so creators,
 sweepers, clean exits, failures and crashes interleave freely.
 */
module Runtimes {
  import opened Common

  /** A runtime directory: whether its lock file exists, and who holds that lock. */
  datatype Dir = Dir(lockFile: bool, holder: Option<nat>)

  datatype Stage =
    | Idle
    | Sweeping(todo: set<nat>)                // holds the allocation lock
    | Removing(todo: set<nat>, dir: nat)      // is deleting `dir` during its sweep
    | Swept
    | Made(dir: nat)                          // directory without a lock file
    | Published(dir: nat)                     // lock file not locked yet
    | Live(dir: nat)
    | Dropping(dir: nat)                      // clean exit, deleting its own directory
  {
    predicate Allocating() { Sweeping? || Removing? || Swept? || Made? || Published? }
    predicate Refers(d: nat) { (Removing? || Made? || Published? || Live? || Dropping?) && dir == d }
    predicate Owns(d: nat) { (Made? || Published? || Live?) && dir == d }
  }

  datatype State = State(dirs: map<nat, Dir>, alloc: Option<nat>, procs: map<nat, Stage>, nextDir: nat)

  datatype Event =
    | Begin(p: nat)                            // take the allocation lock and list the directories
    | Examine(p: nat, d: nat, idle: bool)      // `idle`: untouched for six hours
    | Unlink(p: nat)                           // a deletion in progress removes the lock file
    | Remove(p: nat, ok: bool)
    | EndSweep(p: nat)
    | Make(p: nat)
    | Publish(p: nat)
    | Lock(p: nat)
    | CreateFails(p: nat, ok: bool, unlinked: bool) // `ok`: its directory is gone; else perhaps its lock file
    | Exit(p: nat)
    | DropDone(p: nat, ok: bool)
    | Crash(p: nat)

  function StageOf(s: State, p: nat): Stage {
    if p in s.procs then s.procs[p] else Idle
  }

  predicate Enabled(s: State, e: Event) {
    var stage := StageOf(s, e.p);
    match e
    case Begin(_) => stage.Idle? && s.alloc.None?
    case Examine(_, d, _) => stage.Sweeping? && d in stage.todo
    case Unlink(_) => (stage.Removing? || stage.Dropping?) && stage.dir in s.dirs
    case Remove(_, ok) => stage.Removing? && (ok ==> stage.dir in s.dirs)
    case EndSweep(_) => stage.Sweeping? && stage.todo == {}
    case Make(_) => stage.Swept?
    case Publish(_) => stage.Made? && stage.dir in s.dirs
    case Lock(_) => stage.Published? && stage.dir in s.dirs && s.dirs[stage.dir].holder.None?
    case CreateFails(_, _, _) => stage.Swept? || stage.Made? || stage.Published?
    case Exit(_) => stage.Live?
    case DropDone(_, _) => stage.Dropping?
    case Crash(_) => true
  }

  /** The operating system releases every lock of a process that ends. */
  function Released(dirs: map<nat, Dir>, p: nat): map<nat, Dir> {
    map d | d in dirs :: if dirs[d].holder == Some(p) then dirs[d].(holder := None) else dirs[d]
  }

  /** What a failed creation leaves: its deletion may fail, before or after the lock file is gone. */
  function Abandoned(dirs: map<nat, Dir>, d: nat, ok: bool, unlinked: bool): map<nat, Dir> {
    if ok || d !in dirs then dirs - {d} else dirs[d := dirs[d].(lockFile := dirs[d].lockFile && !unlinked)]
  }

  function SetStage(s: State, p: nat, stage: Stage): State {
    s.(procs := s.procs[p := stage])
  }

  /** One directory of a sweep: skip it, or take its lock and start deleting. */
  function ExamineStep(s: State, p: nat, d: nat, idle: bool): State
    requires StageOf(s, p).Sweeping?
  {
    var todo := StageOf(s, p).todo - {d};
    if d !in s.dirs then SetStage(s, p, Sweeping(todo))
    else if s.dirs[d].lockFile then
      if s.dirs[d].holder.None?
      then SetStage(s.(dirs := s.dirs[d := s.dirs[d].(holder := Some(p))]), p, Removing(todo, d))
      else SetStage(s, p, Sweeping(todo))
    else SetStage(s, p, if idle then Removing(todo, d) else Sweeping(todo))
  }

  function Step(s: State, e: Event): State
    requires Enabled(s, e)
  {
    var p, stage := e.p, StageOf(s, e.p);
    match e
    case Begin(_) => SetStage(s.(alloc := Some(p)), p, Sweeping(s.dirs.Keys))
    case Examine(_, d, idle) => ExamineStep(s, p, d, idle)
    case Unlink(_) => s.(dirs := s.dirs[stage.dir := s.dirs[stage.dir].(lockFile := false)])
    case Remove(_, ok) =>
      SetStage(s.(dirs := if ok then s.dirs - {stage.dir} else Released(s.dirs, p)), p, Sweeping(stage.todo))
    case EndSweep(_) => SetStage(s, p, Swept)
    case Make(_) =>
      SetStage(s.(dirs := s.dirs[s.nextDir := Dir(false, None)], nextDir := s.nextDir + 1), p, Made(s.nextDir))
    case Publish(_) =>
      SetStage(s.(dirs := s.dirs[stage.dir := s.dirs[stage.dir].(lockFile := true)]), p, Published(stage.dir))
    case Lock(_) =>
      SetStage(s.(dirs := s.dirs[stage.dir := s.dirs[stage.dir].(holder := Some(p))], alloc := None),
               p, Live(stage.dir))
    case CreateFails(_, ok, unlinked) =>
      SetStage(s.(dirs := if stage.Swept? then s.dirs else Abandoned(s.dirs, stage.dir, ok, unlinked), alloc := None),
               p, Idle)
    case Exit(_) => SetStage(s, p, Dropping(stage.dir))
    case DropDone(_, ok) =>
      SetStage(s.(dirs := if ok then s.dirs - {stage.dir} else Released(s.dirs, p)), p, Idle)
    case Crash(_) =>
      SetStage(s.(dirs := Released(s.dirs, p), alloc := if s.alloc == Some(p) then None else s.alloc), p, Idle)
  }

  /** An event that is not enabled does not happen. */
  function Next(s: State, e: Event): State {
    if Enabled(s, e) then Step(s, e) else s
  }

  function Exec(s: State, es: seq<Event>): State {
    if es == [] then s else Next(Exec(s, es[..|es| - 1]), es[|es| - 1])
  }

  predicate Init(s: State) {
    s.dirs == map[] && s.alloc.None? && s.procs == map[]
  }

  /** What stage `p` is in agrees with the locks and the directories. */
  predicate SoundStage(s: State, p: nat) {
    var stage := StageOf(s, p);
    && (stage.Allocating() <==> s.alloc == Some(p))
    && (match stage
        case Removing(_, d) => d < s.nextDir && (d in s.dirs ==> s.dirs[d].holder == Some(p) || !s.dirs[d].lockFile)
        case Made(d) => d in s.dirs && s.dirs[d] == Dir(false, None)
        case Published(d) => d in s.dirs && s.dirs[d] == Dir(true, None)
        case Live(d) => d in s.dirs && s.dirs[d] == Dir(true, Some(p))
        case Dropping(d) => d < s.nextDir && (d in s.dirs ==> s.dirs[d].holder == Some(p))
        case _ => true)
  }

  predicate SoundDir(s: State, d: nat) {
    d in s.dirs ==> d < s.nextDir
                    && (s.dirs[d].holder.Some? ==>
                          var q := StageOf(s, s.dirs[d].holder.value); q.Refers(d) && !q.Made? && !q.Published?)
  }

  ghost predicate Inv(s: State) {
    (forall p: nat :: SoundStage(s, p)) && (forall d: nat :: SoundDir(s, d))
  }

  lemma InvStep(s: State, e: Event)
    requires Inv(s)
    ensures Inv(Next(s, e))
  {
    forall p: nat
      ensures SoundStage(Next(s, e), p)
    {
      if p == e.p {
        ActorKept(s, e);
      } else {
        OtherKept(s, e, p);
      }
    }
    forall d: nat
      ensures SoundDir(Next(s, e), d)
    {
      DirKept(s, e, d);
    }
  }

  lemma ActorKept(s: State, e: Event)
    requires Inv(s)
    ensures SoundStage(Next(s, e), e.p)
  {
    assert SoundStage(s, e.p);
    if e.Examine? {
      assert SoundDir(s, e.d);
    }
    if e.Exit? && Enabled(s, e) {
      assert SoundDir(s, StageOf(s, e.p).dir);
    }
  }

  lemma OtherKept(s: State, e: Event, p: nat)
    requires Inv(s) && e.p != p
    ensures SoundStage(Next(s, e), p)
  {
    assert SoundStage(s, e.p) && SoundStage(s, p);
    var stage := StageOf(s, p);
    if stage.Removing? || stage.Made? || stage.Published? || stage.Live? || stage.Dropping? {
      assert SoundDir(s, stage.dir);
    }
  }

  lemma DirKept(s: State, e: Event, d: nat)
    requires Inv(s)
    ensures SoundDir(Next(s, e), d)
  {
    assert SoundStage(s, e.p) && SoundDir(s, d);
    if d in s.dirs && s.dirs[d].holder.Some? {
      assert SoundStage(s, s.dirs[d].holder.value);
    }
  }

  lemma {:induction false} InvRun(s: State, es: seq<Event>)
    requires Inv(s)
    ensures Inv(Exec(s, es))
  {
    if es != [] {
      InvRun(s, es[..|es| - 1]);
      InvStep(Exec(s, es[..|es| - 1]), es[|es| - 1]);
    }
  }

  // ---- No live runtime is ever removed ----

  /** Events by which `p` itself gives up the directory it owns. */
  predicate Leaves(s: State, e: Event, p: nat) {
    e.p == p && Enabled(s, e) && (e.Exit? || e.Crash? || e.CreateFails?)
  }

  /** A directory stays with its owner, during creation and while it is live,
      through exactly the events by which the owner does not give it up. */
  lemma OwnedSurvives(s: State, e: Event, p: nat, d: nat)
    requires Inv(s) && StageOf(s, p).Owns(d)
    ensures StageOf(Next(s, e), p).Owns(d) <==> !Leaves(s, e, p)
    ensures !Leaves(s, e, p) ==> d in Next(s, e).dirs
    ensures !Leaves(s, e, p) && StageOf(s, p).Live? ==>
              Next(s, e).dirs[d] == Dir(true, Some(p)) && StageOf(Next(s, e), p) == Live(d)
  {
    InvStep(s, e);
    assert SoundStage(s, p) && SoundStage(s, e.p);
    assert SoundStage(Next(s, e), p);
  }

  lemma {:induction false} LiveStays(s: State, es: seq<Event>, p: nat, d: nat)
    requires Inv(s) && StageOf(s, p) == Live(d)
    requires forall k :: 0 <= k < |es| ==> !Leaves(Exec(s, es[..k]), es[k], p)
    ensures d in Exec(s, es).dirs && Exec(s, es).dirs[d] == Dir(true, Some(p))
    ensures StageOf(Exec(s, es), p) == Live(d)
  {
    if es == [] {
      assert SoundStage(s, p);
    } else {
      var init := es[..|es| - 1];
      forall k | 0 <= k < |init|
        ensures !Leaves(Exec(s, init[..k]), init[k], p)
      {
        assert init[..k] == es[..k];
      }
      LiveStays(s, init, p, d);
      InvRun(s, init);
      OwnedSurvives(Exec(s, init), es[|es| - 1], p, d);
    }
  }

  /** However many creators, sweepers, exits and crashes ran (`past`) and run
      (`es`), a runtime whose owner finished creation stays, locked by its
      owner, until the owner itself exits or dies. */
  lemma LiveRuntimeStays(s: State, past: seq<Event>, es: seq<Event>, p: nat, d: nat)
    requires Init(s) && StageOf(Exec(s, past), p) == Live(d)
    requires forall k :: 0 <= k < |es| ==> !Leaves(Exec(Exec(s, past), es[..k]), es[k], p)
    ensures var t := Exec(Exec(s, past), es);
            d in t.dirs && t.dirs[d] == Dir(true, Some(p)) && StageOf(t, p) == Live(d)
  {
    InvRun(s, past);
    LiveStays(Exec(s, past), es, p, d);
  }

  /** A directory that is gone never comes back. */
  lemma {:induction false} GoneStaysGone(s: State, es: seq<Event>, d: nat)
    requires Inv(s) && d < s.nextDir && d !in s.dirs
    ensures d !in Exec(s, es).dirs && d < Exec(s, es).nextDir
  {
    if es != [] {
      GoneStaysGone(s, es[..|es| - 1], d);
      var t := Exec(s, es[..|es| - 1]);
      InvRun(s, es[..|es| - 1]);
      assert SoundStage(t, es[|es| - 1].p);
    }
  }

  /** A clean exit takes its own directory with it for good, and no other:
      however the exit interleaves with other processes (`es`), its successful
      end leaves the directory gone in every later state. */
  lemma CleanExitRemoves(s: State, past: seq<Event>, p: nat, d: nat, es: seq<Event>)
    requires Init(s) && StageOf(Exec(s, past), p) == Dropping(d)
    ensures var t := Exec(s, past);
            var gone := Next(t, DropDone(p, true));
            && d !in Exec(gone, es).dirs && StageOf(gone, p).Idle?
            && forall other :: other != d ==> MapGet(gone.dirs, other) == MapGet(t.dirs, other)
  {
    InvRun(s, past);
    var t := Exec(s, past);
    assert SoundStage(t, p);
    InvStep(t, DropDone(p, true));
    GoneStaysGone(Next(t, DropDone(p, true)), es, d);
  }

  /** Leaving starts that exit, and a crash leaves the directory for a sweep. */
  lemma LeavingReleases(s: State, p: nat, d: nat)
    requires Inv(s) && StageOf(s, p) == Live(d)
    ensures StageOf(Next(s, Exit(p)), p) == Dropping(d)
    ensures Dead(Next(s, Crash(p)), d)
  {
    assert SoundStage(s, p);
    var t := Next(s, Crash(p));
    forall q: nat
      ensures !StageOf(t, q).Refers(d)
    {
      assert SoundStage(s, q);
    }
  }

  /** A creation that fails takes its directory with it, or leaves it behind with
      its lock file unless that is gone already; nobody holds that lock. */
  lemma FailedCreation(s: State, p: nat, ok: bool, unlinked: bool)
    requires Inv(s) && (StageOf(s, p).Made? || StageOf(s, p).Published?)
    ensures var t, d := Next(s, CreateFails(p, ok, unlinked)), StageOf(s, p).dir;
            && MapGet(t.dirs, d) == (if ok then None else Some(Dir(StageOf(s, p).Published? && !unlinked, None)))
            && t.alloc.None? && StageOf(t, p).Idle?
            && forall other :: other != d ==> MapGet(t.dirs, other) == MapGet(s.dirs, other)
  {
    assert SoundStage(s, p);
  }

  /** A deletion that dies after removing the lock file leaves a directory that
      only an idle sweep takes up. */
  lemma HalfDeletedWaits(s: State, p: nat, d: nat)
    requires Inv(s) && d in s.dirs
    requires (StageOf(s, p).Dropping? || StageOf(s, p).Removing?) && StageOf(s, p).dir == d
    ensures var t := Next(Next(s, Unlink(p)), Crash(p));
            d in t.dirs && !t.dirs[d].lockFile && t.dirs[d].holder != Some(p) && !Dead(t, d)
  {
  }

  /** Which directories an examination takes up for deletion: one whose lock file
      nobody holds, or one without a lock file that has been idle. */
  lemma ExamineTakes(s: State, p: nat, d: nat, idle: bool)
    requires Enabled(s, Examine(p, d, idle))
    ensures var t := Next(s, Examine(p, d, idle));
            && (StageOf(t, p).Removing? <==>
                  d in s.dirs && if s.dirs[d].lockFile then s.dirs[d].holder.None? else idle)
            && (StageOf(t, p).Removing? ==> StageOf(t, p).dir == d)
            && (StageOf(t, p).Sweeping? ==> t.dirs == s.dirs) && t.dirs.Keys == s.dirs.Keys
  {
  }

  // ---- Every dead runtime is reclaimed by the next completed sweep ----

  /** A directory with a lock file that no running process owns or is deleting. */
  ghost predicate Dead(s: State, d: nat) {
    d in s.dirs && s.dirs[d].lockFile && forall p: nat :: !StageOf(s, p).Refers(d)
  }

  /** `p`'s sweep has removed `d`, is removing it, or still has it on its list. */
  ghost predicate Reclaiming(s: State, p: nat, d: nat) {
    && d < s.nextDir
    && (|| d !in s.dirs
        || (StageOf(s, p).Removing? && StageOf(s, p).dir == d)
        || ((StageOf(s, p).Sweeping? || StageOf(s, p).Removing?) && d in StageOf(s, p).todo && Dead(s, d)))
  }

  /** The sweep of `p` is cut short, or one of its removals fails. */
  predicate SweepFails(s: State, e: Event, p: nat) {
    e.p == p && Enabled(s, e) && (e.Crash? || (e.Remove? && !e.ok))
  }

  lemma ReclaimingStep(s: State, e: Event, p: nat, d: nat)
    requires Inv(s) && Reclaiming(s, p, d)
    requires !SweepFails(s, e, p)
    ensures Reclaiming(Next(s, e), p, d)
  {
    assert SoundStage(s, p) && SoundStage(s, e.p) && SoundDir(s, d);
    var t := Next(s, e);
    if Dead(s, d) && d in t.dirs && !(StageOf(t, p).Removing? && StageOf(t, p).dir == d) {
      forall q: nat
        ensures !StageOf(t, q).Refers(d)
      {
        assert SoundStage(s, q);
        assert !StageOf(s, q).Refers(d);
      }
    }
  }

  lemma {:induction false} SweepRun(s: State, es: seq<Event>, p: nat, d: nat)
    requires Inv(s) && Reclaiming(s, p, d)
    requires forall k :: 0 <= k < |es| ==> !SweepFails(Exec(s, es[..k]), es[k], p)
    ensures Reclaiming(Exec(s, es), p, d)
  {
    if es != [] {
      var init := es[..|es| - 1];
      forall k | 0 <= k < |init|
        ensures !SweepFails(Exec(s, init[..k]), init[k], p)
      {
        assert init[..k] == es[..k];
      }
      SweepRun(s, init, p, d);
      InvRun(s, init);
      ReclaimingStep(Exec(s, init), es[|es| - 1], p, d);
    }
  }

  lemma SweepStarts(s: State, p: nat, d: nat)
    requires Inv(s) && Enabled(s, Begin(p)) && Dead(s, d)
    ensures Reclaiming(Next(s, Begin(p)), p, d)
  {
    assert SoundDir(s, d);
    forall q: nat
      ensures !StageOf(Next(s, Begin(p)), q).Refers(d)
    {
      assert !StageOf(s, q).Refers(d);
    }
  }

  /** Whatever ran before (`past`) and runs beside it (`es`), a sweep that gets
      to its end with its removals succeeding leaves no runtime that was dead
      when it began. */
  lemma SweepReclaims(s: State, past: seq<Event>, es: seq<Event>, p: nat, d: nat)
    requires Init(s) && Enabled(Exec(s, past), Begin(p)) && Dead(Exec(s, past), d)
    requires var s1 := Next(Exec(s, past), Begin(p));
             forall k :: 0 <= k < |es| ==> !SweepFails(Exec(s1, es[..k]), es[k], p)
    ensures var t := Exec(Next(Exec(s, past), Begin(p)), es);
            StageOf(t, p).Swept? ==> d !in t.dirs
  {
    InvRun(s, past);
    InvStep(Exec(s, past), Begin(p));
    SweepStarts(Exec(s, past), p, d);
    SweepRun(Next(Exec(s, past), Begin(p)), es, p, d);
  }
}
