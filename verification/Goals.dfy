/**
 Goal enforcement of src/goals.rs and its session steps in src/session.rs: how
 often a turn that does not affirm the goal is continued, and what settles it.
 */
module Goals {
  import opened Common
  import opened Verdicts

  const MAX_CONTINUATIONS := 12

  datatype Status = Active | GoalMet | GoalUnmeetable | Stalled
  datatype Goal = Goal(objective: string, status: Status, continuations: nat, kickoff: bool)

  /** `Continue(n)`: send the agent back to work for the n-th time. */
  datatype Followup = Done | Continue(n: nat)

  /** One finished turn: what its reply says, and whether it ended normally. */
  datatype Turn = Turn(verdict: Verdict, endedNormally: bool)

  function NewGoal(objective: string): Goal {
    Goal(Trim(objective), Active, 0, true)
  }

  /** The end-of-turn check. */
  function After(goal: Option<Goal>, turn: Turn): (Option<Goal>, Followup) {
    if goal.None? || !goal.value.status.Active? || !turn.endedNormally then (goal, Done) else
    var g := goal.value;
    match turn.verdict
    case Met(_) => (Some(g.(status := GoalMet)), Done)
    case Unmeetable(_) => (Some(g.(status := GoalUnmeetable)), Done)
    case Open =>
      if g.continuations >= MAX_CONTINUATIONS then (Some(g.(status := Stalled)), Done)
      else (Some(g.(continuations := g.continuations + 1)), Continue(g.continuations + 1))
  }

  /** What can happen to a session's goal. */
  datatype Step =
    | TurnEnds(turn: Turn)
    | ClientTurn                          // the client sends a prompt
    | Dispatched                          // a turn takes the kickoff to the agent
    | Restored                            // the session is loaded from disk
    | Edited(objective: Option<string>)   // `/goal` sets or clears it

  /** A client turn starts the count over and gives a stalled goal its guidance. */
  function Guided(g: Goal): Goal {
    g.(continuations := 0, status := if g.status.Stalled? then Active else g.status)
  }

  function Apply(goal: Option<Goal>, step: Step): (Option<Goal>, Followup) {
    match step
    case TurnEnds(turn) => After(goal, turn)
    case ClientTurn => (if goal.Some? then Some(Guided(goal.value)) else None, Done)
    case Dispatched => (if goal.Some? then Some(goal.value.(kickoff := false)) else None, Done)
    case Restored => (if goal.Some? then Some(goal.value.(kickoff := false, continuations := 0)) else None, Done)
    case Edited(objective) =>
      (if objective.None? then None
       else if Trim(objective.value) == [] then goal
       else Some(NewGoal(objective.value)), Done)
  }

  function GoalAfter(goal: Option<Goal>, steps: seq<Step>): Option<Goal> {
    if steps == [] then goal else Apply(GoalAfter(goal, steps[..|steps| - 1]), steps[|steps| - 1]).0
  }

  /** The last of `steps` is answered with a continuation. */
  predicate ContinuesLast(goal: Option<Goal>, steps: seq<Step>)
    requires steps != []
  {
    Apply(GoalAfter(goal, steps[..|steps| - 1]), steps[|steps| - 1]).1.Continue?
  }

  /** How many of these steps were answered with a continuation. */
  function Continuations(goal: Option<Goal>, steps: seq<Step>): nat {
    if steps == [] then 0
    else Continuations(goal, steps[..|steps| - 1]) + if ContinuesLast(goal, steps) then 1 else 0
  }

  /** An edit the router accepts: clearing, or an objective that is not blank. */
  predicate Replaces(step: Step) {
    step.Edited? && (step.objective.None? || Trim(step.objective.value) != [])
  }

  /** The steps that start the count over. */
  predicate Resets(step: Step) {
    step.ClientTurn? || step.Restored? || Replaces(step)
  }

  /** How many steps there are up to and including the last reset. */
  function LastReset(steps: seq<Step>): (n: nat)
    ensures n <= |steps|
    ensures n > 0 ==> Resets(steps[n - 1])
    ensures forall k :: n <= k < |steps| ==> !Resets(steps[k])
  {
    if steps == [] then 0 else if Resets(steps[|steps| - 1]) then |steps| else LastReset(steps[..|steps| - 1])
  }

  function ResetCount(steps: seq<Step>): nat {
    if steps == [] then 0 else ResetCount(steps[..|steps| - 1]) + if Resets(steps[|steps| - 1]) then 1 else 0
  }

  /** The continuations sent since the last reset. */
  function SentSince(goal: Option<Goal>, steps: seq<Step>): int {
    Continuations(goal, steps) - Continuations(goal, steps[..LastReset(steps)])
  }

  lemma SentSinceStep(goal: Option<Goal>, steps: seq<Step>)
    requires steps != []
    ensures SentSince(goal, steps)
            == if Resets(steps[|steps| - 1]) then 0
               else SentSince(goal, steps[..|steps| - 1]) + if ContinuesLast(goal, steps) then 1 else 0
  {
    var init := steps[..|steps| - 1];
    if Resets(steps[|steps| - 1]) {
      assert steps[..|steps|] == steps;
    } else {
      assert steps[..LastReset(init)] == init[..LastReset(init)];
    }
  }

  /** A session that has sent nothing yet: no goal, or one with its count at zero. */
  predicate Unsent(goal: Option<Goal>) {
    goal.Some? ==> goal.value.continuations == 0
  }

  function Count(goal: Option<Goal>): nat {
    if goal.Some? then goal.value.continuations else 0
  }

  lemma CountStep(goal: Option<Goal>, step: Step)
    requires Count(goal) <= 12
    ensures var (after, followup) := Apply(goal, step);
            && Count(after) == (if Resets(step) then 0 else Count(goal) + if followup.Continue? then 1 else 0) <= 12
            && (followup.Continue? ==> followup.n == Count(after))
  {
  }

  /** Over any mixture of turns, prompts, restores and edits, the goal's count is
      the number of continuations sent since the last reset and never passes
      twelve; each continuation carries its number. */
  lemma {:induction false} ContinuationsAreBounded(goal: Option<Goal>, steps: seq<Step>)
    requires Unsent(goal)
    ensures SentSince(goal, steps) == Count(GoalAfter(goal, steps))
    ensures SentSince(goal, steps) <= 12
    ensures steps != [] && ContinuesLast(goal, steps) ==>
              Apply(GoalAfter(goal, steps[..|steps| - 1]), steps[|steps| - 1]).1.n == SentSince(goal, steps)
  {
    if steps == [] {
      assert steps[..0] == steps;
    } else {
      ContinuationsAreBounded(goal, steps[..|steps| - 1]);
      CountStep(GoalAfter(goal, steps[..|steps| - 1]), steps[|steps| - 1]);
      SentSinceStep(goal, steps);
    }
  }

  /** Twelve continuations at most for each client turn, restore or edit, and
      twelve before the first, whatever the agent replies. */
  lemma {:induction false} TwelvePerReset(goal: Option<Goal>, steps: seq<Step>)
    requires Unsent(goal)
    ensures Continuations(goal, steps) <= 12 * ResetCount(steps) + SentSince(goal, steps)
    ensures Continuations(goal, steps) <= 12 * (ResetCount(steps) + 1)
  {
    ContinuationsAreBounded(goal, steps);
    if steps == [] {
      assert steps[..0] == steps;
    } else {
      TwelvePerReset(goal, steps[..|steps| - 1]);
      SentSinceStep(goal, steps);
    }
  }

  /** A step that takes a goal out of a status other than `Active`: an edit, or
      for a stalled goal a client turn. */
  predicate Unsettles(status: Status, step: Step) {
    Replaces(step) || (step.ClientTurn? && status.Stalled?)
  }

  predicate HasStatus(goal: Option<Goal>, status: Status) {
    goal.Some? && goal.value.status == status
  }

  lemma SettledStep(goal: Goal, step: Step)
    requires !goal.status.Active?
    ensures var (after, followup) := Apply(Some(goal), step);
            && followup.Done?
            && (HasStatus(after, goal.status) <==> !Unsettles(goal.status, step))
            && (HasStatus(after, goal.status) ==> after.value.objective == goal.objective)
            && (step.ClientTurn? && goal.status.Stalled? ==> after == Some(goal.(status := Active, continuations := 0)))
  {
  }

  /** The goal has this status after every step. */
  ghost predicate KeepsStatus(goal: Goal, steps: seq<Step>) {
    forall k :: 0 <= k <= |steps| ==> StatusAt(goal, steps, k)
  }

  predicate StatusAt(goal: Goal, steps: seq<Step>, k: nat)
    requires k <= |steps|
  {
    HasStatus(GoalAfter(Some(goal), steps[..k]), goal.status)
  }

  lemma KeepsStatusInit(goal: Goal, steps: seq<Step>)
    requires steps != []
    ensures KeepsStatus(goal, steps) <==>
              KeepsStatus(goal, steps[..|steps| - 1]) && StatusAt(goal, steps, |steps|)
  {
    var init := steps[..|steps| - 1];
    forall k | 0 <= k <= |init|
      ensures StatusAt(goal, init, k) <==> StatusAt(goal, steps, k)
    {
      assert init[..k] == steps[..k];
    }
  }

  /** A settled goal stays settled through exactly the runs without an unsettling
      step, and then keeps its objective and never continues: a met or unmeetable
      goal until it is edited, a stalled one until an edit or a client turn. */
  lemma {:induction false} SettledStaysSettled(goal: Goal, steps: seq<Step>)
    requires !goal.status.Active?
    ensures KeepsStatus(goal, steps) <==> forall k :: 0 <= k < |steps| ==> !Unsettles(goal.status, steps[k])
    ensures KeepsStatus(goal, steps) ==>
              && Continuations(Some(goal), steps) == 0
              && HasStatus(GoalAfter(Some(goal), steps), goal.status)
              && GoalAfter(Some(goal), steps).value.objective == goal.objective
  {
    if steps == [] {
      assert steps[..0] == steps;
    } else {
      var init, step := steps[..|steps| - 1], steps[|steps| - 1];
      SettledStaysSettled(goal, init);
      KeepsStatusInit(goal, steps);
      assert steps[..|steps|] == steps;
      assert (forall k :: 0 <= k < |steps| ==> !Unsettles(goal.status, steps[k]))
        <==> (forall k :: 0 <= k < |init| ==> !Unsettles(goal.status, init[k])) && !Unsettles(goal.status, step);
      if KeepsStatus(goal, init) {
        SettledStep(GoalAfter(Some(goal), init).value, step);
      }
    }
  }

  /** After a client turn an active or stalled goal gets the full allowance: an
      agent that never affirms is continued exactly twelve times, and the next
      normal end reports the goal stalled. */
  lemma {:induction false} UnaffirmedGoalStalls(goal: Goal, steps: seq<Step>)
    requires goal.status.Active? || goal.status.Stalled?
    requires forall i :: 0 <= i < |steps| ==>
               steps[i].TurnEnds? && steps[i].turn.endedNormally && steps[i].turn.verdict.Open?
    ensures var start := Apply(Some(goal), ClientTurn).0;
            var end := GoalAfter(start, steps);
            && Continuations(start, steps) == (if |steps| < 12 then |steps| else 12)
            && end.Some? && end.value.continuations == (if |steps| < 12 then |steps| else 12)
            && end.value.status == if |steps| <= 12 then Active else Stalled
  {
    if steps != [] {
      UnaffirmedGoalStalls(goal, steps[..|steps| - 1]);
    }
  }

  // ---- What settles a goal ----

  /** The reply the router asks for settles an active goal as it says, with its
      objective and count as they were; with too short a proof the turn ends as
      one that said nothing. */
  lemma AffirmedTurnSettles(goal: Goal, pre: string, title: string, gap: string, proof: string)
    requires goal.status.Active? && (pre == [] || pre[|pre| - 1] == '\n')
    requires Titles(title, proof) && IsGap(gap) && IsTrimmed(proof) && NoneAffirms(Lines(proof), Affirmation)
    ensures var met := After(Some(goal), Turn(VerdictOf(Reply(pre, "MET", title, gap, proof)), true));
            var unmeetable := After(Some(goal), Turn(VerdictOf(Reply(pre, "UNMEETABLE", title, gap, proof)), true));
            if NonBlank(proof) >= 40 then
              && met == (Some(goal.(status := GoalMet)), Done)
              && unmeetable == (Some(goal.(status := GoalUnmeetable)), Done)
            else met == unmeetable == After(Some(goal), Turn(Open, true))
  {
    AffirmedAsAsked(pre, title, gap, proof);
  }

  /** At step `k` a turn ends normally on the active goal with this verdict. */
  predicate JudgedAt(goal: Option<Goal>, steps: seq<Step>, k: nat, met: bool) {
    && k < |steps| && steps[k].TurnEnds? && steps[k].turn.endedNormally
    && HasStatus(GoalAfter(goal, steps[..k]), Active)
    && if met then steps[k].turn.verdict.Met? else steps[k].turn.verdict.Unmeetable?
  }

  lemma {:induction false} SettledByVerdict(goal: Option<Goal>, steps: seq<Step>, met: bool) returns (k: nat)
    requires var status := if met then GoalMet else GoalUnmeetable;
             HasStatus(GoalAfter(goal, steps), status) && !HasStatus(goal, status)
    ensures JudgedAt(goal, steps, k, met)
  {
    var status := if met then GoalMet else GoalUnmeetable;
    var init := steps[..|steps| - 1];
    if HasStatus(GoalAfter(goal, init), status) {
      k := SettledByVerdict(goal, init, met);
      assert init[..k] == steps[..k];
    } else {
      k := |init|;
      assert steps[..|init|] == init;
    }
  }

  /** The verdicts of the turns are those of their replies. */
  ghost predicate Heard(steps: seq<Step>, replies: seq<string>) {
    |replies| == |steps|
    && forall k :: 0 <= k < |steps| && steps[k].TurnEnds? ==> steps[k].turn.verdict == VerdictOf(replies[k])
  }

  /** Over any run, a goal gets settled only by a turn that ended normally while
      it was active and whose last affirming line says so: met by a line that says
      it is met, unmeetable by one that says it is not to be met. */
  lemma SettledOnlyByAffirmation(goal: Option<Goal>, steps: seq<Step>, replies: seq<string>, met: bool)
    requires Heard(steps, replies)
    requires var status := if met then GoalMet else GoalUnmeetable;
             HasStatus(GoalAfter(goal, steps), status) && !HasStatus(goal, status)
    ensures exists k: nat, i: int :: JudgedAt(goal, steps, k, met) && Decides(Lines(replies[k]), Affirmation, i, met)
  {
    var k := SettledByVerdict(goal, steps, met);
    var i := DecidingLine(replies[k], steps[k].turn.verdict);
    assert JudgedAt(goal, steps, k, met) && Decides(Lines(replies[k]), Affirmation, i, met);
  }

  lemma DecidingLine(reply: string, verdict: Verdict) returns (i: int)
    requires VerdictOf(reply) == verdict && !verdict.Open?
    ensures Decides(Lines(reply), Affirmation, i, verdict.Met?)
  {
    VerdictCarriesProof(reply);
    i :| Decides(Lines(reply), Affirmation, i, verdict.Met?);
  }

  /** How many steps there are up to and including the last edit that set or
      cleared the goal. */
  function LastEdit(steps: seq<Step>): (n: nat)
    ensures n <= |steps|
    ensures n > 0 ==> Replaces(steps[n - 1])
    ensures forall k :: n <= k < |steps| ==> !Replaces(steps[k])
  {
    if steps == [] then 0 else if Replaces(steps[|steps| - 1]) then |steps| else LastEdit(steps[..|steps| - 1])
  }

  lemma EditStep(goal: Option<Goal>, step: Step)
    ensures var after := Apply(goal, step).0;
            if Replaces(step) then
              if step.objective.None? then after.None?
              else after.Some? && after.value.objective == Trim(step.objective.value) != [] && after.value.kickoff
            else
              && after.Some? == goal.Some?
              && (after.Some? ==>
                    && after.value.objective == goal.value.objective
                    && (after.value.kickoff <==> goal.value.kickoff && !step.Dispatched? && !step.Restored?))
  {
  }

  /** Neither a turn was dispatched nor a session restored from step `n` on. */
  predicate Untouched(steps: seq<Step>, n: nat) {
    forall k :: n <= k < |steps| ==> !steps[k].Dispatched? && !steps[k].Restored?
  }

  /** A session without a goal has one exactly after an edit that set it. It has
      that objective, without the white space around it, and its kickoff is due
      until the first turn or restore after the edit. */
  lemma {:induction false} GoalIsLastEdit(steps: seq<Step>)
    ensures var end, n := GoalAfter(None, steps), LastEdit(steps);
            if n == 0 || steps[n - 1].objective.None? then end.None?
            else
              && end.Some? && end.value.objective == Trim(steps[n - 1].objective.value) != []
              && (end.value.kickoff <==> Untouched(steps, n))
  {
    if steps != [] {
      var init, step := steps[..|steps| - 1], steps[|steps| - 1];
      GoalIsLastEdit(init);
      EditStep(GoalAfter(None, init), step);
      var n := LastEdit(init);
      assert Untouched(steps, n) <==> Untouched(init, n) && !step.Dispatched? && !step.Restored?;
    }
  }

  // ---- Why the end-of-turn check is one action ----

  /** The check read the active goal `read`; by the time it writes, the session
      holds `current`. */
  function SettleLate(read: Goal, current: Option<Goal>, turn: Turn): (Option<Goal>, Followup)
    requires read.status.Active?
  {
    var (settled, followup) := After(Some(read), turn);
    if !turn.endedNormally || current.None? then (current, followup)
    else
      var sent := if followup.Continue? then 1 else 0;
      var count := current.value.continuations + sent;
      (Some(current.value.(status := settled.value.status, continuations := count)), followup)
  }

  /** Without an edit in between that is the check itself. An accepted edit gets
      the verdict about the objective it replaced, and a cleared goal can still
      be answered with a continuation. */
  lemma EditWindow(read: Goal, objective: Option<string>, turn: Turn)
    requires read.status.Active?
    ensures SettleLate(read, Some(read), turn) == After(Some(read), turn)
    ensures var current := Apply(Some(read), Edited(objective)).0;
            var (settled, followup) := After(Some(read), turn);
            var (late, lateFollowup) := SettleLate(read, current, turn);
            && lateFollowup == followup && late.Some? == objective.Some?
            && (late.Some? ==> late.value.objective == current.value.objective
                               && late.value.status == settled.value.status)
  {
  }

  class Session {
    var goal: Option<Goal>
    var turnOutput: string

    /** A session loaded from disk resumes its saved goal. */
    constructor (saved: Option<Goal>)
      ensures goal == Apply(saved, Restored).0
      ensures goal.Some? == saved.Some?
      ensures goal.Some? ==> goal.value.objective == saved.value.objective && goal.value.status == saved.value.status
      ensures goal.Some? ==> goal.value.continuations == 0 && !goal.value.kickoff
    {
      goal := if saved.Some? then Some(saved.value.(kickoff := false, continuations := 0)) else None;
      turnOutput := "";
    }

    /** What every client prompt does before it is looked at. */
    method StartClientTurn()
      modifies this`goal
      ensures goal == Apply(old(goal), ClientTurn).0
      ensures goal.Some? ==> goal.value.continuations == 0 && !goal.value.status.Stalled?
    {
      if goal.Some? {
        goal := Some(goal.value.(continuations := 0));
        if goal.value.status == Stalled {
          goal := Some(goal.value.(status := Active));
        }
      }
    }

    /** `_router/goal`: set or clear the goal; a blank objective is refused. */
    method Control(objective: Option<string>) returns (ok: bool)
      modifies this`goal
      ensures goal == Apply(old(goal), Edited(objective)).0
      ensures ok <==> Replaces(Edited(objective))
      ensures !ok ==> goal == old(goal) && objective.Some? && NonBlank(objective.value) == 0
    {
      ok := objective.None? || Trim(objective.value) != [];
      if objective.Some? {
        TrimsToNothing(objective.value);
      }
      if ok {
        goal := if objective.None? then None else Some(NewGoal(objective.value));
      }
    }

    /** The end-of-turn check. */
    method AfterTurn(endedNormally: bool) returns (followup: Followup)
      modifies this`goal
      ensures (goal, followup) == After(old(goal), Turn(VerdictOf(turnOutput), endedNormally))
      ensures old(goal).Some? && old(goal).value.status.Active? && endedNormally ==>
                && goal.Some? && goal.value.objective == old(goal).value.objective
                && (goal.value.status.GoalMet? <==> VerdictOf(turnOutput).Met?)
                && (goal.value.status.GoalUnmeetable? <==> VerdictOf(turnOutput).Unmeetable?)
                && (followup.Continue? ==> VerdictOf(turnOutput).Open?)
      ensures !(old(goal).Some? && old(goal).value.status.Active? && endedNormally) ==>
                goal == old(goal) && followup.Done?
    {
      followup := Settle(VerdictOf(turnOutput), endedNormally);
    }

    /** Store what the turn's verdict makes of the goal. */
    method Settle(verdict: Verdict, endedNormally: bool) returns (followup: Followup)
      modifies this`goal
      ensures (goal, followup) == After(old(goal), Turn(verdict, endedNormally))
    {
      if goal.None? || goal.value.status != Active {
        return Done;
      }
      if !endedNormally {
        return Done;
      }
      var current := goal.value;
      match verdict
      case Met(_) =>
        goal, followup := Some(current.(status := GoalMet)), Done;
      case Unmeetable(_) =>
        goal, followup := Some(current.(status := GoalUnmeetable)), Done;
      case Open =>
        if current.continuations >= MAX_CONTINUATIONS {
          goal, followup := Some(current.(status := Stalled)), Done;
        } else {
          goal := Some(current.(continuations := current.continuations + 1));
          followup := Continue(current.continuations + 1);
        }
    }
  }
}
