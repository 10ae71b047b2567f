/**
 In which order the steps of a run of the update task come (`UpdateTask`), told by the steps alone:
 what must have gone well before a result is written, and what a failure leads to.
 */
module UpdateTaskRuns {
  import opened Wrappers
  import opened UpdateTask

  /** A step of a run of task `op`. */
  predicate StepOf(a: Action, op: Id) {
    match a
    case Begin(k) => k == op
    case Prepare(k, _) => k == op
    case Preflight(k, _) => k == op
    case Pin(k, _) => k == op
    case Announce(k, _) => k == op
    case StartInstaller(k, _) => k == op
    case InstallerWrites(k, _) => k == op
    case InstallerEnds(k, _) => k == op
    case Verify(k, _) => k == op
    case Check(k, _) => k == op
    case Succeed(k, _) => k == op
    case SucceedAgain(k, _) => k == op
    case Fail(k, _) => k == op
    case RollBack(k, _) => k == op
    case RestoreWrites(k, _) => k == op
    case RestoreModules(k, _) => k == op
    case RestoreConf(k, _) => k == op
    case RestoreContainer(k, _) => k == op
    case FinishRollback(k, _) => k == op
    case GiveUp(k, _) => k == op
    case End(k) => k == op
    case RunDies(k) => k == op
    case _ => false
  }

  /** A step after which the run goes elsewhere: every one but the writes to the host's content. */
  predicate Decides(a: Action, op: Id) {
    StepOf(a, op) && !a.InstallerWrites? && !a.RestoreWrites?
  }

  /** What a run may do after its step `a` before it decides again, besides dying. */
  predicate Leads(a: Action, next: Action) {
    match a
    case Begin(_) => next.Prepare?
    case Prepare(_, w) => if w == Done then next.Preflight? else next.Fail?
    case Preflight(_, ok) => if ok then next.Pin? else next.Fail?
    case Pin(_, w) => if w == Done then next.Announce? else next.Fail?
    case Announce(_, w) => if w == Done then next.StartInstaller? else next.Fail?
    case StartInstaller(_, ok) => if ok then next.InstallerWrites? || next.InstallerEnds? else next.RollBack?
    case InstallerEnds(_, ok) => if ok then next.Verify? else next.RollBack?
    case Verify(_, w) => if w == Done then next.Check? else next.RollBack?
    case Check(_, ok) => if ok then next.Succeed? else next.RollBack?
    case Succeed(_, w) => if w == Done then next.End? else next.SucceedAgain?
    case SucceedAgain(_, w) => w == Done && next.End?
    case Fail(_, w) => w == Done && next.End?
    case RollBack(_, w) => w == Done && (next.RestoreWrites? || next.RestoreModules?)
    case RestoreModules(_, ok) => if ok then next.RestoreWrites? || next.RestoreConf? else next.GiveUp?
    case RestoreConf(_, ok) => if ok then next.RestoreContainer? else next.GiveUp?
    case RestoreContainer(_, ok) => if ok then next.FinishRollback? else next.GiveUp?
    case FinishRollback(_, w) => if w == Done then next.End? else next.GiveUp?
    case GiveUp(_, w) => w == Done && next.End?
    case _ => false
  }

  /** `actions[i]` is the last step before `j` by which a run of `op` decided. */
  predicate Last(actions: seq<Action>, i: nat, j: nat, op: Id) {
    && i < j <= |actions| && Decides(actions[i], op)
    && forall k :: i < k < j ==> !Decides(actions[k], op)
  }

  // ---------- where a run stands ----------

  /** Where a run stands after a step by which it decided and did not end. */
  function Stands(a: Action): Pc {
    match a
    case Begin(_) => ToPrepare
    case Prepare(_, w) => if w == Done then ToPreflight else ToFail
    case Preflight(_, ok) => if ok then ToPin else ToFail
    case Pin(_, w) => if w == Done then ToAnnounce else ToFail
    case Announce(_, w) => if w == Done then ToInstall else ToFail
    case StartInstaller(_, ok) => if ok then InInstaller else ToRollBack
    case InstallerEnds(_, ok) => if ok then ToVerify else ToRollBack
    case Verify(_, w) => if w == Done then ToCheck else ToRollBack
    case Check(_, ok) => if ok then ToSucceed else ToRollBack
    case Succeed(_, w) => if w == Done then Cleaning else ToSucceedAgain
    case RollBack(_, _) => RestoringModules
    case RestoreModules(_, ok) => if ok then RestoringConf else ToRollbackFailed
    case RestoreConf(_, ok) => if ok then RestoringContainer else ToRollbackFailed
    case RestoreContainer(_, ok) => if ok then ToRolledBack else ToRollbackFailed
    case FinishRollback(_, w) => if w == Done then Cleaning else ToRollbackFailed
    case _ => Cleaning
  }

  predicate Begun(s: Sys, op: Id) {
    op in s.runs && s.runs[op].pc != Starting
  }

  /** From `s` to `t` the run of `op`, if it had begun, did not move. */
  predicate StaysPut(s: Sys, t: Sys, op: Id) {
    (Begun(t, op) <==> Begun(s, op)) && (Begun(t, op) ==> t.runs[op].pc == s.runs[op].pc)
  }

  /** In `t` the run of `op` has just taken step `a`, which may have ended it. */
  predicate Moved(a: Action, t: Sys, op: Id) {
    && (Begun(t, op) ==> t.runs[op].pc == Stands(a) && !Ended(a))
    && (!Ended(a) && !a.Begin? ==> Begun(t, op))
  }

  /** The step is the last of its run whatever else happens. */
  predicate Ended(a: Action) {
    match a
    case SucceedAgain(_, w) => w != Done
    case Fail(_, w) => w != Done
    case RollBack(_, w) => w != Done
    case GiveUp(_, w) => w != Done
    case End(_) => true
    case RunDies(_) => true
    case _ => false
  }

  lemma AdmissionStaysPut(s: Sys, a: Action, op: Id)
    requires AdmissionEnabled(s, a) && AdmissionInv(s)
    ensures StaysPut(s, AdmissionNext(s, a), op)
  {
  }

  lemma OthersPreparing(s: Sys, a: Action, op: Id)
    requires RunEnabled(s, a) && !StepOf(a, op) && (IsPreparation(a) || a.Begin?)
    ensures StaysPut(s, RunNext(s, a), op)
  {
  }

  lemma OthersInstalling(s: Sys, a: Action, op: Id)
    requires RunEnabled(s, a) && !StepOf(a, op) && IsInstallation(a)
    ensures StaysPut(s, RunNext(s, a), op)
  {
  }

  lemma OthersConfirming(s: Sys, a: Action, op: Id)
    requires RunEnabled(s, a) && !StepOf(a, op) && (IsConfirmation(a) || a.Fail? || a.RollBack?)
    ensures StaysPut(s, RunNext(s, a), op)
  {
  }

  lemma OthersConcluding(s: Sys, a: Action, op: Id)
    requires RunEnabled(s, a) && !StepOf(a, op) && IsResult(a) && !a.Fail? && !a.RollBack?
    ensures StaysPut(s, RunNext(s, a), op)
  {
  }

  lemma OthersRestoring(s: Sys, a: Action, op: Id)
    requires RunEnabled(s, a) && !StepOf(a, op) && !IsInstalling(a) && !IsResult(a)
    ensures StaysPut(s, RunNext(s, a), op)
  {
    if IsRestoration(a) {
      assert a.op != op;
    } else {
      assert a.End? || a.RunDies?;
    }
  }

  lemma OthersStayPut(s: Sys, a: Action, op: Id)
    requires RunEnabled(s, a) && !StepOf(a, op)
    ensures StaysPut(s, RunNext(s, a), op)
  {
    if IsConfirmation(a) || a.Fail? || a.RollBack? {
      OthersConfirming(s, a, op);
    } else if IsResult(a) {
      OthersConcluding(s, a, op);
    } else if IsInstallation(a) {
      OthersInstalling(s, a, op);
    } else if IsInstalling(a) {
      OthersPreparing(s, a, op);
    } else {
      OthersRestoring(s, a, op);
    }
  }

  lemma WritesStayPut(s: Sys, a: Action, op: Id)
    requires RunEnabled(s, a) && StepOf(a, op) && !Decides(a, op)
    ensures StaysPut(s, RunNext(s, a), op)
  {
  }

  lemma DecisionMoves(s: Sys, a: Action, op: Id)
    requires RunEnabled(s, a) && Decides(a, op)
    ensures Moved(a, RunNext(s, a), op)
  {
  }

  lemma MovesByDecisions(s: Sys, a: Action, t: Sys, op: Id)
    requires Inv(s) && Follows(s, a, t)
    ensures MovesBy(s, a, t, op)
  {
    if !RunEnabled(s, a) {
      AdmissionStaysPut(s, a, op);
    } else if Decides(a, op) {
      DecisionMoves(s, a, op);
    } else if StepOf(a, op) {
      WritesStayPut(s, a, op);
    } else {
      OthersStayPut(s, a, op);
    }
  }

  /** From `s` to `t` the run of `op` moves if it decides, and otherwise stays where it is. */
  predicate MovesBy(s: Sys, a: Action, t: Sys, op: Id) {
    if Decides(a, op) then Moved(a, t, op) else StaysPut(s, t, op)
  }

  ghost predicate Moving(states: seq<Sys>, actions: seq<Action>, op: Id) {
    && |states| == |actions| + 1 && !Begun(states[0], op)
    && forall j :: 0 <= j < |actions| ==> MovesBy(states[j], actions[j], states[j + 1], op)
  }

  lemma TraceMoves(states: seq<Sys>, actions: seq<Action>, op: Id)
    requires Trace(states, actions)
    ensures Moving(states, actions, op)
  {
    forall j | 0 <= j < |actions|
      ensures MovesBy(states[j], actions[j], states[j + 1], op)
    {
      TraceInv(states, actions, j);
      assert Follows(states[j], actions[j], states[j + 1]);
      MovesByDecisions(states[j], actions[j], states[j + 1], op);
    }
  }

  /** A run that has begun stands where the last step by which it decided has brought it. */
  lemma {:induction false} StandsAfterLast(states: seq<Sys>, actions: seq<Action>, j: nat, op: Id) returns (i: nat)
    requires Moving(states, actions, op) && j < |states| && Begun(states[j], op)
    ensures Last(actions, i, j, op) && states[j].runs[op].pc == Stands(actions[i]) && !Ended(actions[i])
  {
    assert MovesBy(states[j - 1], actions[j - 1], states[j - 1 + 1], op);
    if Decides(actions[j - 1], op) {
      i := j - 1;
    } else {
      i := StandsAfterLast(states, actions, j - 1, op);
    }
  }

  // ---------- the order of steps ----------

  /** A run that has begun can do exactly what the last step by which it decided leads to, and die. */
  lemma StepsInOrder(states: seq<Sys>, actions: seq<Action>, j: nat, a: Action, op: Id) returns (i: nat)
    requires Trace(states, actions) && j < |states| && Begun(states[j], op) && StepOf(a, op)
    ensures Last(actions, i, j, op)
    ensures Enabled(states[j], a) <==> Leads(actions[i], a) || a == RunDies(op)
  {
    TraceMoves(states, actions, op);
    i := StandsAfterLast(states, actions, j, op);
    TraceInv(states, actions, j);
    HolderIsReady(states[j], op);
    LeadsFromWhereItStands(states[j], actions[i], a, op);
  }

  /** What a run that stands at `pc` may do. */
  predicate MayDo(pc: Pc, a: Action) {
    match a
    case Prepare(_, _) => pc == ToPrepare
    case Preflight(_, _) => pc == ToPreflight
    case Pin(_, _) => pc == ToPin
    case Announce(_, _) => pc == ToAnnounce
    case StartInstaller(_, _) => pc == ToInstall
    case InstallerWrites(_, _) => pc == InInstaller
    case InstallerEnds(_, _) => pc == InInstaller
    case Verify(_, _) => pc == ToVerify
    case Check(_, _) => pc == ToCheck
    case Succeed(_, _) => pc == ToSucceed
    case SucceedAgain(_, _) => pc == ToSucceedAgain
    case Fail(_, _) => pc == ToFail
    case RollBack(_, _) => pc == ToRollBack
    case RestoreWrites(_, _) => pc == RestoringModules || pc == RestoringConf
    case RestoreModules(_, _) => pc == RestoringModules
    case RestoreConf(_, _) => pc == RestoringConf
    case RestoreContainer(_, _) => pc == RestoringContainer
    case FinishRollback(_, _) => pc == ToRolledBack
    case GiveUp(_, _) => pc == ToRollbackFailed
    case End(_) => pc == Cleaning
    case RunDies(_) => true
    case _ => false
  }

  lemma DoesWhatItMay(s: Sys, a: Action, op: Id)
    requires Ready(s, op) && StepOf(a, op)
    ensures Enabled(s, a) <==> MayDo(s.runs[op].pc, a)
  {
  }

  lemma LeadsFromWhereItStands(s: Sys, last: Action, a: Action, op: Id)
    requires Ready(s, op) && Decides(last, op) && s.runs[op].pc == Stands(last) && !Ended(last) && StepOf(a, op)
    ensures Enabled(s, a) <==> Leads(last, a) || a == RunDies(op)
  {
    DoesWhatItMay(s, a, op);
    MayDoWhatItLeadsTo(last, a, op);
  }

  predicate IsForward(a: Action) {
    IsInstalling(a) || a.Succeed? || a.SucceedAgain?
  }

  lemma ForwardLeads(last: Action, a: Action, op: Id)
    requires Decides(last, op) && !Ended(last) && IsForward(last) && StepOf(a, op)
    ensures MayDo(Stands(last), a) <==> Leads(last, a) || a == RunDies(op)
  {
  }

  lemma BackwardLeads(last: Action, a: Action, op: Id)
    requires Decides(last, op) && !Ended(last) && !IsForward(last) && StepOf(a, op)
    ensures MayDo(Stands(last), a) <==> Leads(last, a) || a == RunDies(op)
  {
  }

  lemma MayDoWhatItLeadsTo(last: Action, a: Action, op: Id)
    requires Decides(last, op) && !Ended(last) && StepOf(a, op)
    ensures MayDo(Stands(last), a) <==> Leads(last, a) || a == RunDies(op)
  {
    if IsForward(last) {
      ForwardLeads(last, a, op);
    } else {
      BackwardLeads(last, a, op);
    }
  }

  /** A scheduled run begins exactly if nobody holds the execution lock and its task is accepted and not begun;
      otherwise it is over. */
  lemma BeginsIff(s: Sys, op: Id)
    requires RunEnabled(s, Begin(op))
    ensures var t := RunNext(s, Begin(op));
            && (Begun(t, op) <==> s.lock == None && s.records[op].phase == Accepted)
            && (Begun(t, op) ==> t == s.(lock := Some(op), runs := t.runs) && t.runs[op].start == s.host)
            && (!Begun(t, op) ==> op !in t.runs) && t.runs - {op} == s.runs - {op}
  {
  }

  /** Every step but the first and a death follows, with nothing of its run decided in between, one that
      leads to it. */
  lemma Preceded(states: seq<Sys>, actions: seq<Action>, j: nat, op: Id) returns (i: nat)
    requires Trace(states, actions) && j < |actions| && StepOf(actions[j], op)
    requires !actions[j].Begin? && !actions[j].RunDies?
    ensures Last(actions, i, j, op) && Leads(actions[i], actions[j])
  {
    assert Follows(states[j], actions[j], states[j + 1]);
    assert Begun(states[j], op);
    i := StepsInOrder(states, actions, j, actions[j], op);
  }

  // ---------- what a result means ----------

  /** Between its steps `i` and `j` the run of `op` did not begin anew. */
  predicate SameRun(actions: seq<Action>, i: nat, j: nat, op: Id) {
    i <= j <= |actions| && forall k :: i < k < j ==> actions[k] != Begin(op)
  }

  /** `succeeded` is only written by a run whose installer was started, ended well, and was followed by a
      passed check, in this order. */
  lemma SucceededMeansChecked(states: seq<Sys>, actions: seq<Action>, j: nat, op: Id)
      returns (start: nat, end: nat, check: nat)
    requires Trace(states, actions) && j < |actions|
    requires StepOf(actions[j], op) && (actions[j].Succeed? || actions[j].SucceedAgain?)
    ensures start < end < check < j && SameRun(actions, start, j, op)
    ensures actions[start] == StartInstaller(op, true)
    ensures actions[end] == InstallerEnds(op, true)
    ensures actions[check] == Check(op, true)
  {
    var i := j;
    if actions[j].SucceedAgain? {
      i := Preceded(states, actions, j, op);
    }
    check := Preceded(states, actions, i, op);
    var verify := Preceded(states, actions, check, op);
    end := Preceded(states, actions, verify, op);
    start := Preceded(states, actions, end, op);
  }

  /** The step went wrong after the installation was announced. */
  predicate WentWrong(a: Action, op: Id) {
    a == StartInstaller(op, false) || a == InstallerEnds(op, false) || a == Check(op, false)
  }

  /** The step is on the way to `succeeded`. */
  predicate OnTheWay(a: Action) {
    IsInstalling(a) || a.Succeed?
  }

  /** The run went on after the step as if nothing had gone wrong. */
  predicate WentOn(a: Action) {
    match a
    case Begin(_) => true
    case Prepare(_, w) => w == Done
    case Preflight(_, ok) => ok
    case Pin(_, w) => w == Done
    case Announce(_, w) => w == Done
    case StartInstaller(_, ok) => ok
    case InstallerEnds(_, ok) => ok
    case Verify(_, w) => w == Done
    case Check(_, ok) => ok
    case Succeed(_, _) => true
    case _ => false
  }

  lemma {:induction false} OnTheWaySince(states: seq<Sys>, actions: seq<Action>, i: nat, j: nat, op: Id)
    requires Trace(states, actions) && i < j < |actions| && SameRun(actions, i, j, op)
    requires StepOf(actions[j], op) && (OnTheWay(actions[j]) || actions[j].SucceedAgain?) && !actions[j].Begin?
    requires Decides(actions[i], op)
    ensures WentOn(actions[i])
    decreases j
  {
    var last := Preceded(states, actions, j, op);
    assert last >= i;
    assert OnTheWay(actions[last]) && WentOn(actions[last]);
    if last > i {
      OnTheWaySince(states, actions, i, last, op);
    }
  }

  /** A run that decided and did not end is still there until its next step. */
  lemma {:induction false} StillRunning(states: seq<Sys>, actions: seq<Action>, i: nat, j: nat, op: Id)
    requires Moving(states, actions, op) && Last(actions, i, j, op) && !Ended(actions[i]) && !actions[i].Begin?
    ensures Begun(states[j], op)
    decreases j
  {
    assert MovesBy(states[j - 1], actions[j - 1], states[j - 1 + 1], op);
    if i < j - 1 {
      StillRunning(states, actions, i, j - 1, op);
    }
  }

  /** After an installer that could not be started or ended badly, or a failed check, the run takes no
      step but writing `rolling_back`, unless it dies. */
  lemma FailureIsRolledBack(states: seq<Sys>, actions: seq<Action>, i: nat, j: nat, op: Id)
    requires Trace(states, actions) && i < j < |actions| && WentWrong(actions[i], op)
    requires StepOf(actions[j], op) && forall k :: i < k < j ==> !StepOf(actions[k], op)
    ensures actions[j].RollBack? || actions[j] == RunDies(op)
  {
    TraceMoves(states, actions, op);
    StillRunning(states, actions, i, j, op);
    assert Follows(states[j], actions[j], states[j + 1]);
    if !actions[j].RunDies? {
      var last := Preceded(states, actions, j, op);
      assert last == i;
    }
  }

  /** And that run never writes `succeeded`. */
  lemma FailureNeverSucceeds(states: seq<Sys>, actions: seq<Action>, i: nat, j: nat, op: Id)
    requires Trace(states, actions) && i < j < |actions| && SameRun(actions, i, j, op)
    requires WentWrong(actions[i], op) && StepOf(actions[j], op)
    ensures !actions[j].Succeed? && !actions[j].SucceedAgain?
  {
    if actions[j].Succeed? || actions[j].SucceedAgain? {
      OnTheWaySince(states, actions, i, j, op);
      assert false;
    }
  }

  // ---------- recovery material ----------

  /** The run has announced its installation and not finished. */
  predicate Installs(pc: Pc) {
    match pc
    case Starting => false
    case ToPrepare => false
    case ToPreflight => false
    case ToPin => false
    case ToAnnounce => false
    case ToFail => false
    case Cleaning => false
    case _ => true
  }

  /** The backup and the pinned image of a task are there while a run installs or restores, and as long as
      the last a run has saved is that it was installing or restoring, or gave up restoring. */
  predicate Secured(s: Sys, op: Id) {
    && (op in s.runs && Installs(s.runs[op].pc) ==> op in s.backups && op in s.pins)
    && (op in s.records && s.records[op].writer == ByRun && Kept(s.records[op].phase) ==>
          op in s.backups && op in s.pins)
  }

  predicate Kept(phase: Phase) {
    phase == Installing || phase == Verifying || phase == RollingBack || phase == RollbackFailed
  }

  lemma AdmissionSecures(s: Sys, a: Action, op: Id)
    requires Secured(s, op) && AdmissionEnabled(s, a)
    ensures Secured(AdmissionNext(s, a), op)
  {
  }

  lemma PreparingSecures(s: Sys, a: Action)
    requires RunEnabled(s, a) && Ready(s, a.op) && Secured(s, a.op) && (a.Begin? || IsPreparation(a))
    ensures Secured(RunNext(s, a), a.op)
  {
  }

  lemma InstallingSecures(s: Sys, a: Action)
    requires RunEnabled(s, a) && Ready(s, a.op) && Secured(s, a.op) && (IsInstallation(a) || IsConfirmation(a))
    ensures Secured(RunNext(s, a), a.op)
  {
  }

  lemma ConcludingSecures(s: Sys, a: Action)
    requires RunEnabled(s, a) && Ready(s, a.op) && Secured(s, a.op) && IsResult(a)
    ensures Secured(RunNext(s, a), a.op)
  {
  }

  lemma RestoringSecures(s: Sys, a: Action)
    requires RunEnabled(s, a) && Ready(s, a.op) && Secured(s, a.op) && !IsInstalling(a) && !IsResult(a)
    ensures Secured(RunNext(s, a), a.op)
  {
  }

  lemma OwnStepSecures(s: Sys, a: Action)
    requires RunEnabled(s, a) && Ready(s, a.op) && Secured(s, a.op)
    ensures Secured(RunNext(s, a), a.op)
  {
    if a.Begin? || IsPreparation(a) {
      PreparingSecures(s, a);
    } else if IsInstallation(a) || IsConfirmation(a) {
      InstallingSecures(s, a);
    } else if IsResult(a) {
      ConcludingSecures(s, a);
    } else {
      RestoringSecures(s, a);
    }
  }

  predicate SameMaterial(s: Sys, t: Sys, op: Id) {
    (op in t.backups <==> op in s.backups) && (op in t.pins <==> op in s.pins)
  }

  /** Neither the recovery material nor the record of `op` differs. */
  predicate SameTask(s: Sys, t: Sys, op: Id) {
    SameMaterial(s, t, op) && (op in t.records ==> op in s.records && t.records[op] == s.records[op])
  }

  lemma PreparingKeepsOthers(s: Sys, a: Action, op: Id)
    requires RunEnabled(s, a) && a.op != op && (a.Begin? || IsPreparation(a))
    ensures SameTask(s, RunNext(s, a), op)
  {
  }

  lemma InstallingKeepsOthers(s: Sys, a: Action, op: Id)
    requires RunEnabled(s, a) && a.op != op && (IsInstallation(a) || IsConfirmation(a))
    ensures SameTask(s, RunNext(s, a), op)
  {
  }

  lemma FailingKeepsOthers(s: Sys, a: Action, op: Id)
    requires RunEnabled(s, a) && a.op != op && (a.Fail? || a.RollBack? || a.GiveUp?)
    ensures SameTask(s, RunNext(s, a), op)
  {
  }

  lemma ConcludingKeepsOthers(s: Sys, a: Action, op: Id)
    requires RunEnabled(s, a) && a.op != op && (a.Succeed? || a.SucceedAgain? || a.FinishRollback?)
    ensures SameTask(s, RunNext(s, a), op)
  {
  }

  lemma RestoringKeepsOthers(s: Sys, a: Action, op: Id)
    requires RunEnabled(s, a) && a.op != op && !IsInstalling(a) && !IsResult(a)
    ensures SameTask(s, RunNext(s, a), op)
  {
  }

  lemma OthersKept(s: Sys, a: Action, op: Id)
    requires RunEnabled(s, a) && a.op != op
    ensures SameTask(s, RunNext(s, a), op)
  {
    if a.Begin? || IsPreparation(a) {
      PreparingKeepsOthers(s, a, op);
    } else if IsInstallation(a) || IsConfirmation(a) {
      InstallingKeepsOthers(s, a, op);
    } else if a.Fail? || a.RollBack? || a.GiveUp? {
      FailingKeepsOthers(s, a, op);
    } else if IsResult(a) {
      ConcludingKeepsOthers(s, a, op);
    } else {
      RestoringKeepsOthers(s, a, op);
    }
  }

  lemma OthersSecure(s: Sys, a: Action, op: Id)
    requires RunEnabled(s, a) && a.op != op && Secured(s, op)
    ensures Secured(RunNext(s, a), op)
  {
    OthersStayPut(s, a, op);
    OthersKept(s, a, op);
  }

  lemma NewRunSecures(s: Sys, a: Action)
    requires RunEnabled(s, a) && s.runs[a.op].pc == Starting && Secured(s, a.op)
    ensures Secured(RunNext(s, a), a.op)
  {
    assert a.Begin? || a.RunDies?;
  }

  lemma NextSecures(s: Sys, a: Action, op: Id)
    requires Inv(s) && Enabled(s, a) && Secured(s, op)
    ensures Secured(Next(s, a), op)
  {
    if !RunEnabled(s, a) {
      AdmissionSecures(s, a, op);
    } else if a.op != op {
      OthersSecure(s, a, op);
    } else if s.runs[op].pc == Starting {
      NewRunSecures(s, a);
    } else {
      HolderIsReady(s, op);
      OwnStepSecures(s, a);
    }
  }

  /** At every moment of every run of the system. */
  lemma {:induction false} TraceSecures(states: seq<Sys>, actions: seq<Action>, i: nat, op: Id)
    requires Trace(states, actions) && i < |states|
    ensures Secured(states[i], op)
  {
    if i > 0 {
      TraceSecures(states, actions, i - 1, op);
      TraceInv(states, actions, i - 1);
      assert Follows(states[i - 1], actions[i - 1], states[i - 1 + 1]);
      NextSecures(states[i - 1], actions[i - 1], op);
    }
  }

  /** What a finished run leaves of its own: after a rollback neither backup nor pinned image, after a
      failure no backup, and otherwise both. */
  lemma EndClears(s: Sys, op: Id)
    requires RunEnabled(s, End(op))
    ensures var t, phase := RunNext(s, End(op)), s.records[op].phase;
            && (op in t.backups <==> op in s.backups && phase != RolledBack && phase != Failed)
            && (op in t.pins <==> op in s.pins && phase != RolledBack)
            && t.records == s.records && t.host == s.host && op !in t.runs
  {
  }

  // ---------- one task at a time ----------

  predicate Unfinished(s: Sys, op: Id) {
    op !in s.records || s.records[op].phase == RollbackFailed || !Terminal(s.records[op].phase)
  }

  lemma ActiveStays(s: Sys, a: Action)
    requires Enabled(s, a) && !a.Activate?
    ensures Next(s, a).active == s.active
  {
    if RunEnabled(s, a) {
      RunKeepsActive(s, a);
    }
  }

  lemma RunKeepsActive(s: Sys, a: Action)
    requires RunEnabled(s, a)
    ensures RunNext(s, a).active == s.active
  {
  }

  lemma {:induction false} ActiveSince(states: seq<Sys>, actions: seq<Action>, i: nat, j: nat)
    requires Trace(states, actions) && i < j < |states| && forall k :: i < k < j ==> !actions[k].Activate?
    ensures states[j].active == states[i + 1].active
  {
    if i + 1 < j {
      ActiveSince(states, actions, i, j - 1);
      assert Follows(states[j - 1], actions[j - 1], states[j - 1 + 1]);
      ActiveStays(states[j - 1], actions[j - 1]);
    }
  }

  /** Once an unfinished task was made the active one, and as long as no other is, no new task is
      accepted before it has finished, and none after it could not be rolled back. */
  lemma ActiveBlocks(states: seq<Sys>, actions: seq<Action>, i: nat, j: nat)
    requires Trace(states, actions) && i < j < |actions| && forall k :: i < k < j ==> !actions[k].Activate?
    requires actions[i].Activate? && actions[i].w != Early
    requires states[i].admission.ToActivate? && !Terminal(states[i].admission.phase)
    requires Unfinished(states[j], states[i].admission.op)
    ensures !actions[j].SubmitNew?
  {
    assert Follows(states[i], actions[i], states[i + 1]);
    ActiveSince(states, actions, i, j);
    assert Follows(states[j], actions[j], states[j + 1]);
  }

  /** A new task is accepted exactly if nobody else is being admitted, its id is new, and the active task, if
      there is one, has a result that needs no repair. */
  lemma NewTaskIff(s: Sys, op: Id, w: Write)
    ensures Enabled(s, SubmitNew(op, w)) <==>
              && s.admission == Free && op !in s.records
              && (s.active == None ||
                    (s.active.value in s.records &&
                        s.records[s.active.value].phase in {Succeeded, Failed, RolledBack}))
  {
  }

  /** It gets a record exactly if the record could be written, and nothing else changes. */
  lemma NewTaskMeans(s: Sys, op: Id, w: Write)
    requires Enabled(s, SubmitNew(op, w))
    ensures var t := Next(s, SubmitNew(op, w));
            && t == s.(records := t.records, admission := t.admission) && t.records - {op} == s.records
            && (op in t.records <==> w == Done)
            && (w == Done ==> t.records[op].phase == Accepted && !t.records[op].closed)
  {
  }

  /** A task becomes the active one if its pointer was written and the phase that was read is not final, and
      its run is scheduled next only if that phase is accepted and its unit is inactive. */
  lemma ActivationMeans(s: Sys, op: Id, phase: Phase, w: Write)
    requires s.admission == ToActivate(op, phase)
    ensures var t := Next(s, Activate(w));
            && t == s.(active := t.active, admission := t.admission)
            && t.active == (if w == Early || phase in {Succeeded, Failed, RolledBack, RollbackFailed} then s.active
                            else Some(op))
            && (t.admission == ToSchedule(op) <==> w == Done && phase == Accepted && op !in s.runs)
  {
  }

  /** Reconciling schedules a task again exactly if it was read as accepted and its unit is inactive, and goes
      on to report it exactly if it was read in the middle of its run and its unit is inactive. */
  lemma ReconcileDecides(s: Sys, op: Id, phase: Phase)
    requires s.admission == SawPhase(op, phase)
    ensures var t := Next(s, CheckUnit);
            && t == s.(admission := t.admission)
            && (t.admission == ToSchedule(op) <==> phase == Accepted && op !in s.runs)
            && (t.admission == ToInterrupt(op, phase) <==>
                  phase in {Preparing, Installing, Verifying, RollingBack} && op !in s.runs)
            && (t.admission in {Free, ToSchedule(op), ToInterrupt(op, phase)})
  {
  }

  /** A run only starts for a task without one, found with its record as accepted by the process that
      schedules it. */
  lemma {:induction false} ScheduledWhenAccepted(states: seq<Sys>, actions: seq<Action>, j: nat, op: Id)
      returns (i: nat)
    requires Trace(states, actions) && j < |states| && states[j].admission == ToSchedule(op)
    ensures i < j && op !in states[i].runs && op !in states[j].runs
    ensures states[i].admission == ToActivate(op, Accepted) || states[i].admission == SawPhase(op, Accepted)
  {
    NotRunningYet(states, actions, j, op);
    FromBefore(states, actions, j, op);
    i := j - 1;
    if states[i].admission == ToSchedule(op) {
      i := ScheduledWhenAccepted(states, actions, j - 1, op);
    }
  }

  lemma NotRunningYet(states: seq<Sys>, actions: seq<Action>, j: nat, op: Id)
    requires Trace(states, actions) && j < |states| && states[j].admission == ToSchedule(op)
    ensures op !in states[j].runs
  {
    TraceInv(states, actions, j);
  }

  lemma FromBefore(states: seq<Sys>, actions: seq<Action>, j: nat, op: Id)
    requires Trace(states, actions) && j < |states| && states[j].admission == ToSchedule(op)
    ensures j > 0
    ensures states[j - 1].admission != ToSchedule(op) ==>
              op !in states[j - 1].runs &&
              (states[j - 1].admission == ToActivate(op, Accepted) || states[j - 1].admission == SawPhase(op, Accepted))
  {
    assert j > 0;
    assert Follows(states[j - 1], actions[j - 1], states[j - 1 + 1]);
    if states[j - 1].admission != ToSchedule(op) {
      ToScheduleFrom(states[j - 1], actions[j - 1], op);
    }
  }

  lemma ToScheduleFrom(s: Sys, a: Action, op: Id)
    requires Enabled(s, a) && Next(s, a).admission == ToSchedule(op) && s.admission != ToSchedule(op)
    ensures op !in s.runs
    ensures s.admission == ToActivate(op, Accepted) || s.admission == SawPhase(op, Accepted)
  {
    if RunEnabled(s, a) {
      RunStepEffects(s, a, op);
    }
  }

  // ---------- closing and reconciling ----------

  predicate Settled(s: Sys) {
    forall k :: k in s.records ==> Terminal(s.records[k].phase) && s.records[k].phase != RollbackFailed
  }

  /** A run cannot step while a task is being closed. */
  lemma ClosingIsQuiet(s: Sys, a: Action)
    requires Inv(s) && s.admission.ToClose?
    ensures !RunEnabled(s, a)
  {
    assert s.runs == map[];
  }

  lemma SettledNext(s: Sys, a: Action)
    requires Inv(s) && Enabled(s, a) && Next(s, a).admission.ToClose? && (s.admission.ToClose? ==> Settled(s))
    ensures Settled(Next(s, a))
  {
    if RunEnabled(s, a) {
      RunStepEffects(s, a, a.op);
      ClosingIsQuiet(s, a);
      assert false;
    }
    SettledAdmission(s, a);
  }

  /** Closing goes ahead exactly if nobody else is being admitted, nothing runs, every task has a result and
      none waits for repair, and the id is new or closed already. */
  lemma ClosableIff(s: Sys, op: Id)
    requires Inv(s)
    ensures Enabled(s, CheckClosable(op)) <==>
              && s.admission == Free && s.runs == map[] && Settled(s)
              && (op !in s.records || s.records[op].closed)
  {
  }

  lemma SettledAdmission(s: Sys, a: Action)
    requires AdmissionEnabled(s, a) && AdmissionNext(s, a).admission.ToClose?
    requires s.admission.ToClose? ==> Settled(s)
    ensures Settled(AdmissionNext(s, a))
  {
  }

  lemma {:induction false} SettledSince(states: seq<Sys>, actions: seq<Action>, i: nat)
    requires Trace(states, actions) && i < |states|
    ensures states[i].admission.ToClose? ==> Settled(states[i])
  {
    if i > 0 {
      SettledSince(states, actions, i - 1);
      TraceInv(states, actions, i - 1);
      assert Follows(states[i - 1], actions[i - 1], states[i - 1 + 1]);
      if states[i].admission.ToClose? {
        SettledNext(states[i - 1], actions[i - 1]);
      }
    }
  }

  /** A task is closed only while nothing runs, no installer is active, and every task has a result and
      none is waiting for repair. */
  lemma ClosedWhenSettled(states: seq<Sys>, actions: seq<Action>, i: nat)
    requires Trace(states, actions) && i < |actions| && actions[i].Close?
    ensures states[i].runs == map[] && states[i].installer == None && Settled(states[i])
  {
    assert Follows(states[i], actions[i], states[i + 1]);
    TraceInv(states, actions, i);
    SettledSince(states, actions, i);
  }

  /** Reconciling reports a task found inactive as failed if it was preparing, and otherwise as needing
      repair; it touches nothing else. */
  lemma ReconcileReports(s: Sys, w: Write)
    requires AdmissionEnabled(s, Interrupt(w))
    ensures var t := AdmissionNext(s, Interrupt(w));
            var op, read := s.admission.op, s.admission.phase;
            && t == s.(records := t.records, admission := Free) && t.records - {op} == s.records - {op}
            && op in t.records && t.records[op].closed == s.records[op].closed
            && t.records[op].phase == if w == Early then s.records[op].phase
                else if read == Preparing then Failed else RollbackFailed
  {
  }
}
