/**
 The host-side update task (script/update/lower_update_task.py) as a state machine. Submitting,
 reconciling and closing run under the admission lock, one at a time; a scheduled run of a task
 takes the execution lock. Every read and every write of a persisted file is a step of its own, so
 other processes act in between, and every process may die between any two steps. Only closing
 reads all records in one step: it holds both locks while it does. A write may also be reported as
 failed, before or after it took effect.
 */
module UpdateTask {
  import opened Wrappers

  type Id = nat

  /** What the module and configuration directories hold. */
  datatype Content = Content(modules: int, conf: int)

  datatype Phase = Accepted | Preparing | Installing | Verifying | RollingBack
                 | Succeeded | Failed | RolledBack | RollbackFailed

  predicate Terminal(p: Phase) {
    p.Succeeded? || p.Failed? || p.RolledBack? || p.RollbackFailed?
  }

  /** Who wrote a record last; history, the source does not store it. */
  datatype Writer = BySubmit | ByRun | ByReconcile | ByClose

  datatype Record = Record(phase: Phase, closed: bool, writer: Writer)

  /** Where a run stands. `Starting` is before the execution lock is taken. */
  datatype Pc = Starting | ToPrepare | ToPreflight | ToPin | ToAnnounce | ToInstall | InInstaller | ToVerify
              | ToCheck | ToSucceed | ToSucceedAgain | ToFail | ToRollBack | RestoringModules | RestoringConf
              | RestoringContainer | ToRolledBack | ToRollbackFailed | Cleaning

  /** A scheduled run and the content it found when it began. */
  datatype Run = Run(pc: Pc, start: Content)

  /** What the process under the admission lock is about to do. */
  datatype Admission =
    | Free
    | ToActivate(op: Id, phase: Phase)     // submit, record read or written
    | ToSchedule(op: Id)                   // the unit was seen inactive
    | SawPhase(op: Id, phase: Phase)       // reconcile, record read
    | ToInterrupt(op: Id, phase: Phase)    // reconcile, the unit was seen inactive
    | ToClose(op: Id)                      // close, no task and no process in the way

  datatype Sys = Sys(
    records: map<Id, Record>,
    active: Option<Id>,
    runs: map<Id, Run>,
    lock: Option<Id>,
    installer: Option<Id>,
    host: Content,
    backups: map<Id, Content>,
    pins: set<Id>,
    installs: multiset<Id>,     // history of installer starts
    admission: Admission)

  function Init(host: Content): Sys {
    Sys(map[], None, map[], None, None, host, map[], {}, multiset{}, Free)
  }

  /** How a write to a persisted file ends: done, failed before it took effect, or failed after. */
  datatype Write = Done | Early | Late

  datatype Action =
    | SubmitNew(op: Id, w: Write)
    | SubmitAgain(op: Id)
    | Activate(w: Write)
    | Schedule
    | Reconcile(op: Id)
    | CheckUnit
    | Interrupt(w: Write)
    | CheckClosable(op: Id)
    | Close(w: Write)
    | AdmissionDies
    | Begin(op: Id)
    | Prepare(op: Id, w: Write)
    | Preflight(op: Id, ok: bool)
    | Pin(op: Id, w: Write)
    | Announce(op: Id, w: Write)
    | StartInstaller(op: Id, ok: bool)
    | InstallerWrites(op: Id, content: Content)
    | InstallerEnds(op: Id, ok: bool)
    | Verify(op: Id, w: Write)
    | Check(op: Id, ok: bool)
    | Succeed(op: Id, w: Write)
    | SucceedAgain(op: Id, w: Write)
    | Fail(op: Id, w: Write)
    | RollBack(op: Id, w: Write)
    | RestoreWrites(op: Id, part: int)
    | RestoreModules(op: Id, ok: bool)
    | RestoreConf(op: Id, ok: bool)
    | RestoreContainer(op: Id, ok: bool)
    | FinishRollback(op: Id, w: Write)
    | GiveUp(op: Id, w: Write)
    | End(op: Id)
    | RunDies(op: Id)

  // ---------- steps of a run ----------

  predicate At(s: Sys, op: Id, pc: Pc) {
    op in s.runs && s.runs[op].pc == pc && op in s.records
  }

  function Goto(s: Sys, op: Id, pc: Pc): Sys
    requires op in s.runs
  {
    s.(runs := s.runs[op := s.runs[op].(pc := pc)])
  }

  function Save(s: Sys, op: Id, phase: Phase, w: Write): Sys
    requires op in s.records
  {
    if w == Early then s else s.(records := s.records[op := s.records[op].(phase := phase, writer := ByRun)])
  }

  /** Saves a phase and goes on, or to the handler of the exception. */
  function SaveAnd(s: Sys, op: Id, phase: Phase, w: Write, next: Pc, handler: Pc): Sys
    requires op in s.runs && op in s.records
  {
    Goto(Save(s, op, phase, w), op, if w == Done then next else handler)
  }

  /** The run is over: the unit is inactive, its lock is released, its installer is gone. */
  function Gone(s: Sys, op: Id): Sys {
    s.(runs := s.runs - {op},
       lock := if s.lock == Some(op) then None else s.lock,
       installer := if s.installer == Some(op) then None else s.installer)
  }

  /** Saves a phase in a place where an exception ends the run. */
  function SaveOrDie(s: Sys, op: Id, phase: Phase, w: Write, next: Pc): Sys
    requires op in s.runs && op in s.records
  {
    if w == Done then Goto(Save(s, op, phase, w), op, next) else Gone(Save(s, op, phase, w), op)
  }

  predicate RunEnabled(s: Sys, a: Action) {
    match a
    case Begin(op) => At(s, op, Starting)
    case Prepare(op, _) => At(s, op, ToPrepare)
    case Preflight(op, _) => At(s, op, ToPreflight)
    case Pin(op, _) => At(s, op, ToPin)
    case Announce(op, _) => At(s, op, ToAnnounce)
    case StartInstaller(op, _) => At(s, op, ToInstall)
    case InstallerWrites(op, _) => At(s, op, InInstaller)
    case InstallerEnds(op, _) => At(s, op, InInstaller)
    case Verify(op, _) => At(s, op, ToVerify)
    case Check(op, _) => At(s, op, ToCheck)
    case Succeed(op, _) => At(s, op, ToSucceed)
    case SucceedAgain(op, _) => At(s, op, ToSucceedAgain)
    case Fail(op, _) => At(s, op, ToFail)
    case RollBack(op, _) => At(s, op, ToRollBack)
    case RestoreWrites(op, _) => At(s, op, RestoringModules) || At(s, op, RestoringConf)
    case RestoreModules(op, ok) => At(s, op, RestoringModules) && (ok ==> op in s.backups)
    case RestoreConf(op, ok) => At(s, op, RestoringConf) && (ok ==> op in s.backups)
    case RestoreContainer(op, _) => At(s, op, RestoringContainer)
    case FinishRollback(op, _) => At(s, op, ToRolledBack)
    case GiveUp(op, _) => At(s, op, ToRollbackFailed)
    case End(op) => At(s, op, Cleaning)
    case RunDies(op) => op in s.runs
    case _ => false
  }

  /** Taking the lock and reading the record; only an accepted task goes on. */
  function BeginRun(s: Sys, op: Id): Sys
    requires At(s, op, Starting)
  {
    if s.lock.Some? || s.records[op].phase != Accepted then Gone(s, op)
    else s.(lock := Some(op), runs := s.runs[op := Run(ToPrepare, s.host)])
  }

  function RunNext(s: Sys, a: Action): Sys
    requires RunEnabled(s, a)
  {
    match a
    case Begin(op) => BeginRun(s, op)
    case Prepare(op, w) => SaveAnd(s, op, Preparing, w, ToPreflight, ToFail)
    case Preflight(op, ok) =>
      if ok then Goto(s.(backups := s.backups[op := s.host]), op, ToPin) else Goto(s, op, ToFail)
    case Pin(op, w) =>
      Goto(if w == Early then s else s.(pins := s.pins + {op}), op, if w == Done then ToAnnounce else ToFail)
    case Announce(op, w) => SaveAnd(s, op, Installing, w, ToInstall, ToFail)
    case StartInstaller(op, ok) =>
      if ok then Goto(s.(installer := Some(op), installs := s.installs + multiset{op}), op, InInstaller)
          else Goto(s, op, ToRollBack)
    case InstallerWrites(op, content) => s.(host := content)
    case InstallerEnds(op, ok) => Goto(s.(installer := None), op, if ok then ToVerify else ToRollBack)
    case Verify(op, w) => SaveAnd(s, op, Verifying, w, ToCheck, ToRollBack)
    case Check(op, ok) => Goto(s, op, if ok then ToSucceed else ToRollBack)
    case Succeed(op, w) => SaveAnd(s, op, Succeeded, w, Cleaning, ToSucceedAgain)
    case SucceedAgain(op, w) => SaveOrDie(s, op, Succeeded, w, Cleaning)
    case Fail(op, w) => SaveOrDie(s, op, Failed, w, Cleaning)
    case RollBack(op, w) => SaveOrDie(s, op, RollingBack, w, RestoringModules)
    case RestoreWrites(op, part) =>
      if s.runs[op].pc == RestoringModules then s.(host := s.host.(modules := part))
          else s.(host := s.host.(conf := part))
    case RestoreModules(op, ok) =>
      if ok then Goto(s.(host := s.host.(modules := s.backups[op].modules)), op, RestoringConf)
          else Goto(s, op, ToRollbackFailed)
    case RestoreConf(op, ok) =>
      if ok then Goto(s.(host := s.host.(conf := s.backups[op].conf)), op, RestoringContainer)
          else Goto(s, op, ToRollbackFailed)
    case RestoreContainer(op, ok) => Goto(s, op, if ok then ToRolledBack else ToRollbackFailed)
    case FinishRollback(op, w) => SaveAnd(s, op, RolledBack, w, Cleaning, ToRollbackFailed)
    case GiveUp(op, w) => SaveOrDie(s, op, RollbackFailed, w, Cleaning)
    case End(op) => Gone(CleanUp(s, op), op)
    case RunDies(op) => Gone(s, op)
  }

  /** A finished run drops the recovery material it no longer needs: its own after a failure or a
      rollback. */
  function CleanUp(s: Sys, op: Id): Sys
    requires op in s.records
  {
    match s.records[op].phase
    case RolledBack => s.(backups := s.backups - {op}, pins := s.pins - {op})
    case Failed => s.(backups := s.backups - {op})
    case _ => s
  }

  // ---------- steps under the admission lock ----------

  /** A new task is refused while the active one is unfinished or could not be rolled back. */
  predicate Busy(s: Sys) {
    s.active.Some? &&
    (s.active.value !in s.records || !Terminal(s.records[s.active.value].phase) ||
        s.records[s.active.value].phase == RollbackFailed)
  }

  predicate AdmissionEnabled(s: Sys, a: Action) {
    match a
    case SubmitNew(op, _) => s.admission.Free? && op !in s.records && !Busy(s)
    case SubmitAgain(op) => s.admission.Free? && op in s.records && !s.records[op].closed
    case Activate(_) => s.admission.ToActivate?
    case Schedule => s.admission.ToSchedule?
    case Reconcile(op) => s.admission.Free? && op in s.records
    case CheckUnit => s.admission.SawPhase?
    case Interrupt(_) => s.admission.ToInterrupt? && s.admission.op in s.records
    case CheckClosable(op) =>
      && s.admission.Free? && s.lock.None? && s.runs == map[] && s.installer.None?
      && (op in s.records ==> s.records[op].closed)
      && (forall k :: k in s.records ==> Terminal(s.records[k].phase) && s.records[k].phase != RollbackFailed)
    case Close(_) => s.admission.ToClose?
    case AdmissionDies => true
    case _ => false
  }

  /** A failed creation removes the whole directory again. */
  function Submitted(s: Sys, op: Id, w: Write): Sys {
    if w == Done then s.(records := s.records[op := Record(Accepted, false, BySubmit)],
                         admission := ToActivate(op, Accepted))
    else s.(admission := Free)
  }

  function Activated(s: Sys, w: Write): Sys
    requires s.admission.ToActivate?
  {
    var op := s.admission.op;
    var next := if w == Early || Terminal(s.admission.phase) then s else s.(active := Some(op));
    if w == Done && s.admission.phase == Accepted && op !in s.runs then next.(admission := ToSchedule(op))
    else next.(admission := Free)
  }

  function AdmissionNext(s: Sys, a: Action): Sys
    requires AdmissionEnabled(s, a)
  {
    match a
    case SubmitNew(op, w) => Submitted(s, op, w)
    case SubmitAgain(op) => s.(admission := ToActivate(op, s.records[op].phase))
    case Activate(w) => Activated(s, w)
    case Schedule => s.(runs := s.runs[s.admission.op := Run(Starting, s.host)], admission := Free)
    case Reconcile(op) => s.(admission := SawPhase(op, s.records[op].phase))
    case CheckUnit =>
      var (op, phase) := (s.admission.op, s.admission.phase);
      if op in s.runs || Terminal(phase) then s.(admission := Free)
      else if phase == Accepted then s.(admission := ToSchedule(op))
      else s.(admission := ToInterrupt(op, phase))
    case Interrupt(w) =>
      var op := s.admission.op;
      var phase := if s.admission.phase == Preparing then Failed else RollbackFailed;
      var r := s.records[op].(phase := phase, writer := ByReconcile);
      (if w == Early then s else s.(records := s.records[op := r])).(admission := Free)
    case CheckClosable(op) => s.(admission := ToClose(op))
    case Close(w) =>
      var op := s.admission.op;
      (if w == Early then s else s.(records := s.records[op := Record(Failed, true, ByClose)])).(admission := Free)
    case AdmissionDies => s.(admission := Free)
  }

  predicate Enabled(s: Sys, a: Action) {
    RunEnabled(s, a) || AdmissionEnabled(s, a)
  }

  function Next(s: Sys, a: Action): Sys
    requires Enabled(s, a)
  {
    if RunEnabled(s, a) then RunNext(s, a) else AdmissionNext(s, a)
  }

  // ---------- the invariant ----------

  /** What a run knows at each point: the phase it saved last, that the content is still the one it
      found, and that its recovery material is there. */
  predicate PcInv(s: Sys, op: Id, run: Run)
    requires op in s.records
  {
    var phase := s.records[op].phase;
    var kept := op in s.backups && s.backups[op] == run.start;
    var untouched := s.host == run.start && s.installs[op] == 0;
    match run.pc
    case Starting => true
    case ToPrepare => phase == Accepted && untouched
    case ToPreflight => phase == Preparing && untouched
    case ToPin => phase == Preparing && untouched && kept
    case ToAnnounce => phase == Preparing && untouched && kept && op in s.pins
    case ToInstall => phase == Installing && untouched && kept && op in s.pins
    case InInstaller => phase == Installing && kept && op in s.pins && s.installs[op] == 1
    case ToVerify => phase == Installing && kept && s.installs[op] == 1
    case ToCheck => phase == Verifying && kept && s.installs[op] == 1
    case ToSucceed => phase == Verifying && s.installs[op] == 1
    case ToSucceedAgain => (phase == Verifying || phase == Succeeded) && s.installs[op] == 1
    case ToFail => (phase == Accepted || phase == Preparing || phase == Installing) && untouched
    case ToRollBack => (phase == Installing || phase == Verifying) && kept
    case RestoringModules => phase == RollingBack && kept
    case RestoringConf => phase == RollingBack && kept && s.host.modules == run.start.modules
    case RestoringContainer => phase == RollingBack && kept && s.host == run.start
    case ToRolledBack => phase == RollingBack && kept && s.host == run.start
    case ToRollbackFailed => phase == RollingBack || phase == RolledBack
    case Cleaning => Terminal(phase) && (phase == RolledBack || phase == Failed ==> s.host == run.start)
  }

  predicate RecordInv(s: Sys, op: Id, r: Record) {
    && (r.phase == Accepted || r.phase == Preparing ==> s.installs[op] == 0)
    && (r.phase == Failed && r.writer != ByReconcile ==> s.installs[op] == 0)
    && (r.closed ==> r.phase == Failed && r.writer == ByClose)
  }

  predicate AdmissionInv(s: Sys) {
    match s.admission
    case Free => true
    case ToActivate(op, phase) => op in s.records && !s.records[op].closed
    case ToSchedule(op) => op in s.records && op !in s.runs && !s.records[op].closed
    case SawPhase(op, phase) => op in s.records && (!Terminal(phase) ==> !s.records[op].closed)
    case ToInterrupt(op, phase) => op in s.records && op !in s.runs && !Terminal(phase) && phase != Accepted &&
        !s.records[op].closed
    case ToClose(op) => s.runs == map[] && (op in s.records ==> s.records[op].closed)
  }

  ghost predicate Inv(s: Sys) {
    && (forall op :: op in s.runs ==> op in s.records && PcInv(s, op, s.runs[op]))
    && (forall op :: op in s.runs && s.runs[op].pc != Starting ==> s.lock == Some(op))
    && (forall op :: op in s.records ==> RecordInv(s, op, s.records[op]))
    && (forall op :: op in s.installs ==> op in s.records && s.installs[op] == 1)
    && (s.lock.Some? ==> s.lock.value in s.runs && s.runs[s.lock.value].pc != Starting)
    && (s.installer.Some? ==> s.installer.value in s.runs && s.runs[s.installer.value].pc == InInstaller)
    && (forall op :: op in s.runs ==> !s.records[op].closed)
    && AdmissionInv(s)
  }

  lemma InitInv(host: Content)
    ensures Inv(Init(host))
  {
  }

  lemma QuietStepKeepsInv(s: Sys, t: Sys)
    requires Inv(s) && t == s.(admission := t.admission, active := t.active) && AdmissionInv(t)
    ensures Inv(t)
  {
    forall op | op in t.runs ensures PcInv(t, op, t.runs[op]) {
      assert PcInv(s, op, s.runs[op]);
    }
    forall op | op in t.records ensures RecordInv(t, op, t.records[op]) {
      assert RecordInv(s, op, s.records[op]);
    }
  }

  /** A record is created, or overwritten while its task has no active unit. */
  lemma RecordStepKeepsInv(s: Sys, t: Sys, op: Id, r: Record)
    requires Inv(s) && op !in s.runs && t == s.(records := s.records[op := r], admission := t.admission)
    requires RecordInv(t, op, r) && AdmissionInv(t)
    ensures Inv(t)
  {
    forall k | k in t.runs ensures PcInv(t, k, t.runs[k]) && !t.records[k].closed {
      assert PcInv(s, k, s.runs[k]);
    }
    forall k | k in t.records && k != op ensures RecordInv(t, k, t.records[k]) {
      assert RecordInv(s, k, s.records[k]);
    }
  }

  lemma SubmitNewKeepsInv(s: Sys, op: Id, w: Write)
    requires Inv(s) && AdmissionEnabled(s, SubmitNew(op, w))
    ensures Inv(Submitted(s, op, w))
  {
    assert op !in s.installs;
    if w == Done {
      RecordStepKeepsInv(s, Submitted(s, op, w), op, Record(Accepted, false, BySubmit));
    } else {
      QuietStepKeepsInv(s, Submitted(s, op, w));
    }
  }

  lemma ScheduleKeepsInv(s: Sys)
    requires Inv(s) && s.admission.ToSchedule?
    ensures Inv(AdmissionNext(s, Schedule))
  {
    var t := AdmissionNext(s, Schedule);
    var op := s.admission.op;
    forall k | k in t.runs ensures PcInv(t, k, t.runs[k]) {
      if k != op { assert PcInv(s, k, s.runs[k]); }
    }
    forall k | k in t.records ensures RecordInv(t, k, t.records[k]) {
      assert RecordInv(s, k, s.records[k]);
    }
  }

  lemma InterruptKeepsInv(s: Sys, w: Write)
    requires Inv(s) && AdmissionEnabled(s, Interrupt(w))
    ensures Inv(AdmissionNext(s, Interrupt(w)))
  {
    var t := AdmissionNext(s, Interrupt(w));
    var op := s.admission.op;
    if w == Early {
      QuietStepKeepsInv(s, t);
    } else {
      RecordStepKeepsInv(s, t, op, t.records[op]);
    }
  }

  lemma CloseKeepsInv(s: Sys, w: Write)
    requires Inv(s) && AdmissionEnabled(s, Close(w))
    ensures Inv(AdmissionNext(s, Close(w)))
  {
    var op := s.admission.op;
    if w == Early {
      QuietStepKeepsInv(s, AdmissionNext(s, Close(w)));
      return;
    }
    if op in s.records {
      assert RecordInv(s, op, s.records[op]);
    } else {
      assert op !in s.installs;
    }
    RecordStepKeepsInv(s, AdmissionNext(s, Close(w)), op, Record(Failed, true, ByClose));
  }

  lemma QuietAdmissionKeepsInv(s: Sys, a: Action)
    requires Inv(s) && AdmissionEnabled(s, a)
    requires !a.SubmitNew? && !a.Schedule? && !a.Interrupt? && !a.Close?
    ensures Inv(AdmissionNext(s, a))
  {
    QuietStepKeepsInv(s, AdmissionNext(s, a));
  }

  lemma AdmissionKeepsInv(s: Sys, a: Action)
    requires Inv(s) && AdmissionEnabled(s, a)
    ensures Inv(AdmissionNext(s, a))
  {
    if a.SubmitNew? {
      SubmitNewKeepsInv(s, a.op, a.w);
    } else if a.Schedule? {
      ScheduleKeepsInv(s);
    } else if a.Interrupt? {
      InterruptKeepsInv(s, a.w);
    } else if a.Close? {
      CloseKeepsInv(s, a.w);
    } else {
      QuietAdmissionKeepsInv(s, a);
    }
  }

  /** The step of the lock holder `op` from `s` to `t` only concerns `op`, and what the invariant says
      about `op` holds afterwards. */
  ghost predicate LocalStep(s: Sys, t: Sys, op: Id) {
    && op in s.records && t.records.Keys == s.records.Keys
    && (forall k :: k in s.records && k != op ==> t.records[k] == s.records[k])
    && (forall k :: k != op ==> (k in t.runs <==> k in s.runs))
    && (forall k :: k in s.runs && k != op ==> t.runs[k] == s.runs[k])
    && (forall k :: k != op ==> t.installs[k] == s.installs[k])
    && t.admission == s.admission
    && RecordInv(t, op, t.records[op]) && !t.records[op].closed && t.installs[op] <= 1
    && (if op in t.runs then PcInv(t, op, t.runs[op]) && t.runs[op].pc != Starting &&
          t.lock == Some(op) else t.lock == None)
    && (t.installer.Some? ==> t.installer == Some(op) && op in t.runs && t.runs[op].pc == InInstaller)
  }

  lemma LocalStepKeepsInv(s: Sys, t: Sys, op: Id)
    requires Inv(s) && s.lock == Some(op) && op in s.runs && LocalStep(s, t, op)
    ensures Inv(t)
  {
    forall k | k in t.runs && k != op
      ensures t.runs[k].pc == Starting
    {
      assert k in s.runs;
    }
    forall k | k in t.records && k != op
      ensures RecordInv(t, k, t.records[k])
    {
      assert RecordInv(s, k, s.records[k]);
    }
  }

  /** What the invariant says about the holder of the execution lock. */
  predicate Ready(s: Sys, op: Id) {
    && op in s.runs && op in s.records && s.runs[op].pc != Starting && s.lock == Some(op)
    && PcInv(s, op, s.runs[op]) && RecordInv(s, op, s.records[op]) && !s.records[op].closed && s.installs[op] <= 1
    && (s.installer.Some? ==> s.installer == Some(op) && s.runs[op].pc == InInstaller)
  }

  lemma HolderIsReady(s: Sys, op: Id)
    requires Inv(s) && op in s.runs && s.runs[op].pc != Starting
    ensures Ready(s, op)
  {
    if s.installs[op] > 0 {
      assert op in s.installs;
    }
  }

  predicate IsPreparation(a: Action) {
    a.Prepare? || a.Preflight? || a.Pin?
  }

  lemma PreparationIsLocal(s: Sys, a: Action)
    requires RunEnabled(s, a) && IsPreparation(a) && Ready(s, a.op)
    ensures LocalStep(s, RunNext(s, a), a.op)
  {
  }

  predicate IsInstallation(a: Action) {
    a.Announce? || a.StartInstaller? || a.InstallerWrites? || a.InstallerEnds?
  }

  lemma InstallationIsLocal(s: Sys, a: Action)
    requires RunEnabled(s, a) && IsInstallation(a) && Ready(s, a.op)
    ensures LocalStep(s, RunNext(s, a), a.op)
  {
  }

  predicate IsConfirmation(a: Action) {
    a.Verify? || a.Check?
  }

  lemma ConfirmationIsLocal(s: Sys, a: Action)
    requires RunEnabled(s, a) && IsConfirmation(a) && Ready(s, a.op)
    ensures LocalStep(s, RunNext(s, a), a.op)
  {
  }

  lemma SucceedIsLocal(s: Sys, a: Action)
    requires RunEnabled(s, a) && a.Succeed? && Ready(s, a.op)
    ensures LocalStep(s, RunNext(s, a), a.op)
  {
  }

  lemma SucceedAgainIsLocal(s: Sys, a: Action)
    requires RunEnabled(s, a) && a.SucceedAgain? && Ready(s, a.op)
    ensures LocalStep(s, RunNext(s, a), a.op)
  {
  }

  lemma FailIsLocal(s: Sys, a: Action)
    requires RunEnabled(s, a) && a.Fail? && Ready(s, a.op)
    ensures LocalStep(s, RunNext(s, a), a.op)
  {
  }

  lemma GiveUpIsLocal(s: Sys, a: Action)
    requires RunEnabled(s, a) && a.GiveUp? && Ready(s, a.op)
    ensures LocalStep(s, RunNext(s, a), a.op)
  {
  }

  lemma RollBackIsLocal(s: Sys, a: Action)
    requires RunEnabled(s, a) && a.RollBack? && Ready(s, a.op)
    ensures LocalStep(s, RunNext(s, a), a.op)
  {
  }

  lemma FinishRollbackIsLocal(s: Sys, a: Action)
    requires RunEnabled(s, a) && a.FinishRollback? && Ready(s, a.op)
    ensures LocalStep(s, RunNext(s, a), a.op)
  {
  }

  predicate IsRestoration(a: Action) {
    a.RestoreWrites? || a.RestoreModules? || a.RestoreConf? || a.RestoreContainer?
  }

  lemma RestorationIsLocal(s: Sys, a: Action)
    requires RunEnabled(s, a) && IsRestoration(a) && Ready(s, a.op)
    ensures LocalStep(s, RunNext(s, a), a.op)
  {
  }

  lemma EarlyDeathKeepsInv(s: Sys, op: Id)
    requires Inv(s) && op in s.runs && s.runs[op].pc == Starting
    ensures Inv(Gone(s, op))
  {
    var t := Gone(s, op);
    assert s.lock != Some(op) && s.installer != Some(op);
    forall k | k in t.runs ensures PcInv(t, k, t.runs[k]) {
      assert PcInv(s, k, s.runs[k]);
    }
    forall k | k in t.records ensures RecordInv(t, k, t.records[k]) {
      assert RecordInv(s, k, s.records[k]);
    }
  }

  lemma BeginKeepsInv(s: Sys, op: Id)
    requires Inv(s) && At(s, op, Starting)
    ensures Inv(BeginRun(s, op))
  {
    if s.lock.Some? || s.records[op].phase != Accepted {
      EarlyDeathKeepsInv(s, op);
    } else {
      var t := BeginRun(s, op);
      assert RecordInv(s, op, s.records[op]);
      forall k | k in t.runs && k != op ensures t.runs[k].pc == Starting {
        assert k in s.runs;
      }
      forall k | k in t.records ensures RecordInv(t, k, t.records[k]) {
        assert RecordInv(s, k, s.records[k]);
      }
    }
  }

  lemma EndIsLocal(s: Sys, a: Action)
    requires RunEnabled(s, a) && (a.End? || a.RunDies?) && Ready(s, a.op)
    ensures LocalStep(s, RunNext(s, a), a.op)
  {
  }

  lemma RunStepIsLocal(s: Sys, a: Action)
    requires RunEnabled(s, a) && Ready(s, a.op) && !a.Begin?
    ensures LocalStep(s, RunNext(s, a), a.op)
  {
    if IsPreparation(a) {
      PreparationIsLocal(s, a);
    } else if IsInstallation(a) {
      InstallationIsLocal(s, a);
    } else if IsConfirmation(a) {
      ConfirmationIsLocal(s, a);
    } else if a.Succeed? {
      SucceedIsLocal(s, a);
    } else if a.SucceedAgain? {
      SucceedAgainIsLocal(s, a);
    } else if a.Fail? {
      FailIsLocal(s, a);
    } else if a.GiveUp? {
      GiveUpIsLocal(s, a);
    } else if a.RollBack? {
      RollBackIsLocal(s, a);
    } else if a.FinishRollback? {
      FinishRollbackIsLocal(s, a);
    } else if IsRestoration(a) {
      RestorationIsLocal(s, a);
    } else {
      EndIsLocal(s, a);
    }
  }

  lemma RunKeepsInv(s: Sys, a: Action)
    requires Inv(s) && RunEnabled(s, a)
    ensures Inv(RunNext(s, a))
  {
    if a.Begin? {
      BeginKeepsInv(s, a.op);
    } else if s.runs[a.op].pc == Starting {
      EarlyDeathKeepsInv(s, a.op);
    } else {
      HolderIsReady(s, a.op);
      RunStepIsLocal(s, a);
      LocalStepKeepsInv(s, RunNext(s, a), a.op);
    }
  }

  lemma NextInv(s: Sys, a: Action)
    requires Inv(s) && Enabled(s, a)
    ensures Inv(Next(s, a))
  {
    if RunEnabled(s, a) {
      RunKeepsInv(s, a);
    } else {
      AdmissionKeepsInv(s, a);
    }
  }

  // ---------- every run of the system ----------

  ghost predicate Follows(s: Sys, a: Action, t: Sys) {
    Enabled(s, a) && t == Next(s, a)
  }

  ghost predicate Trace(states: seq<Sys>, actions: seq<Action>) {
    && |states| == |actions| + 1
    && states[0] == Init(states[0].host)
    && forall i :: 0 <= i < |actions| ==> Follows(states[i], actions[i], states[i + 1])
  }

  lemma {:induction false} TraceInv(states: seq<Sys>, actions: seq<Action>, i: nat)
    requires Trace(states, actions) && i < |states|
    ensures forall k :: 0 <= k <= i ==> Inv(states[k])
  {
    if i == 0 {
      InitInv(states[0].host);
    } else {
      TraceInv(states, actions, i - 1);
      assert Follows(states[i - 1], actions[i - 1], states[i - 1 + 1]);
      NextInv(states[i - 1], actions[i - 1]);
    }
  }

  /** At any moment of any interleaving, every task has had its installer started at most once, and a
      closed task never. */
  lemma AtMostOnce(states: seq<Sys>, actions: seq<Action>, i: nat, op: Id)
    requires Trace(states, actions) && i < |states|
    ensures states[i].installs[op] <= 1
    ensures op in states[i].records && states[i].records[op].closed ==> states[i].installs[op] == 0
    ensures op in states[i].records ==>
              var r := states[i].records[op];
              r.phase == Failed && r.writer != ByReconcile ==> states[i].installs[op] == 0
  {
    TraceInv(states, actions, i);
    var s := states[i];
    if s.installs[op] > 0 {
      assert op in s.installs;
    }
    if op in s.records {
      assert RecordInv(s, op, s.records[op]);
    }
  }

  /** Whenever an installer starts, no other is active, it is the first for its task, the task is not
      closed, and a backup of the present content and the pinned image are there. */
  lemma InstallerStartsSafely(states: seq<Sys>, actions: seq<Action>, i: nat)
    requires Trace(states, actions) && i < |actions| && actions[i].StartInstaller? && actions[i].ok
    ensures var s := states[i]; var op := actions[i].op;
            && s.installer == None && s.lock == Some(op) && s.installs[op] == 0
            && op in s.records && !s.records[op].closed
            && op in s.backups && s.backups[op] == s.host && op in s.pins
  {
    TraceInv(states, actions, i);
    assert Follows(states[i], actions[i], states[i + 1]);
    HolderIsReady(states[i], actions[i].op);
  }

  /** When a run writes `failed`, nothing has been touched since it began. */
  lemma FailedMeansUntouched(states: seq<Sys>, actions: seq<Action>, i: nat)
    requires Trace(states, actions) && i < |actions| && actions[i].Fail?
    ensures var s := states[i]; var op := actions[i].op;
            op in s.runs && s.host == s.runs[op].start && s.installs[op] == 0
  {
    TraceInv(states, actions, i);
    assert Follows(states[i], actions[i], states[i + 1]);
    HolderIsReady(states[i], actions[i].op);
  }

  /** When a run writes `rolled_back`, the content equals its backup, which is what it found. */
  lemma RolledBackMeansRestored(states: seq<Sys>, actions: seq<Action>, i: nat)
    requires Trace(states, actions) && i < |actions| && actions[i].FinishRollback?
    ensures var s := states[i]; var op := actions[i].op;
            op in s.runs && op in s.backups && s.host == s.backups[op] && s.host == s.runs[op].start
  {
    TraceInv(states, actions, i);
    assert Follows(states[i], actions[i], states[i + 1]);
    HolderIsReady(states[i], actions[i].op);
  }

  /** What a step of a run never touches: the admission, the records of other tasks, and the count of
      installer starts, except that it counts a start of its own. */
  ghost predicate OwnEffects(s: Sys, a: Action, t: Sys, op: Id)
    requires RunEnabled(s, a)
  {
    && t.admission == s.admission
    && (op in s.records && op != a.op ==> op in t.records && t.records[op] == s.records[op])
    && t.installs[op] == s.installs[op] + if a == StartInstaller(op, true) then 1 else 0
  }

  predicate IsResult(a: Action) {
    a.Succeed? || a.SucceedAgain? || a.Fail? || a.RollBack? || a.FinishRollback? || a.GiveUp?
  }

  predicate IsInstalling(a: Action) {
    a.Begin? || IsPreparation(a) || IsInstallation(a) || IsConfirmation(a)
  }

  lemma InstallingEffects(s: Sys, a: Action, op: Id)
    requires RunEnabled(s, a) && IsInstalling(a)
    ensures OwnEffects(s, a, RunNext(s, a), op)
  {
  }

  lemma ResultEffects(s: Sys, a: Action, op: Id)
    requires RunEnabled(s, a) && IsResult(a)
    ensures OwnEffects(s, a, RunNext(s, a), op)
  {
  }

  lemma RestoringEffects(s: Sys, a: Action, op: Id)
    requires RunEnabled(s, a) && !IsInstalling(a) && !IsResult(a)
    ensures OwnEffects(s, a, RunNext(s, a), op)
  {
  }

  lemma RunStepEffects(s: Sys, a: Action, op: Id)
    requires RunEnabled(s, a)
    ensures OwnEffects(s, a, RunNext(s, a), op)
  {
    if IsInstalling(a) {
      InstallingEffects(s, a, op);
    } else if IsResult(a) {
      ResultEffects(s, a, op);
    } else {
      RestoringEffects(s, a, op);
    }
  }

  lemma AdmissionLeavesClosed(s: Sys, a: Action, op: Id)
    requires AdmissionInv(s) && AdmissionEnabled(s, a) && op in s.records && s.records[op].closed
    ensures op in AdmissionNext(s, a).records && AdmissionNext(s, a).records[op].closed
  {
  }

  /** A closed record is final. */
  lemma ClosedStays(s: Sys, a: Action, op: Id)
    requires Inv(s) && Enabled(s, a) && op in s.records && s.records[op].closed
    ensures op in Next(s, a).records && Next(s, a).records[op].closed
  {
    if RunEnabled(s, a) {
      RunStepEffects(s, a, op);
    } else {
      AdmissionLeavesClosed(s, a, op);
    }
  }

  // ---------- what reconciling says ----------

  /** The record changed after the reconciling process read it. */
  predicate Stale(s: Sys)
    requires s.admission.ToInterrupt? && s.admission.op in s.records
  {
    s.records[s.admission.op].phase != s.admission.phase
  }

  /** An interruption is reported for a task that really stopped in the phase that was read, unless the
      record is stale: then a terminal result, or a later phase, is overwritten. */
  lemma InterruptedWhereItStopped(s: Sys, w: Write)
    requires Inv(s) && s.admission.ToInterrupt? && AdmissionEnabled(s, Interrupt(w))
    ensures s.admission.op !in s.runs
    ensures !Stale(s) ==> !Terminal(s.records[s.admission.op].phase)
    ensures !Stale(s) && Next(s, Interrupt(Done)).records[s.admission.op].phase == Failed ==>
              s.installs[s.admission.op] == 0
  {
    assert RecordInv(s, s.admission.op, s.records[s.admission.op]);
  }

  lemma StepInstalls(s: Sys, a: Action, op: Id)
    requires Enabled(s, a)
    ensures Next(s, a).installs[op] == s.installs[op] + if a == StartInstaller(op, true) then 1 else 0
  {
    if RunEnabled(s, a) {
      RunStepEffects(s, a, op);
    }
  }

  lemma {:induction false} InstallsCounted(states: seq<Sys>, actions: seq<Action>, i: nat, j: nat, op: Id)
    requires Trace(states, actions) && i <= j < |states|
    ensures states[i].installs[op] <= states[j].installs[op]
    ensures states[i].installs[op] == states[j].installs[op] <==>
              forall k :: i <= k < j ==> actions[k] != StartInstaller(op, true)
  {
    if i < j {
      InstallsCounted(states, actions, i, j - 1, op);
      assert Follows(states[j - 1], actions[j - 1], states[j - 1 + 1]);
      StepInstalls(states[j - 1], actions[j - 1], op);
    }
  }

  /** What a reconciling process goes by was read by it at some earlier moment. */
  lemma {:induction false} WasRead(states: seq<Sys>, actions: seq<Action>, j: nat, op: Id, phase: Phase)
      returns (i: nat)
    requires Trace(states, actions) && j < |states|
    requires states[j].admission == SawPhase(op, phase) || states[j].admission == ToInterrupt(op, phase)
    ensures i < j && actions[i] == Reconcile(op) && op in states[i].records && states[i].records[op].phase == phase
  {
    assert j > 0;
    var s, a := states[j - 1], actions[j - 1];
    assert Follows(s, a, states[j - 1 + 1]);
    if RunEnabled(s, a) {
      RunStepEffects(s, a, op);
      i := WasRead(states, actions, j - 1, op, phase);
    } else if a == Reconcile(op) {
      i := j - 1;
    } else {
      i := WasRead(states, actions, j - 1, op, phase);
    }
  }

  /** When reconciling writes `failed`, the task has not been touched exactly if no installer of it was
      started since that process read the record. */
  lemma FailedByReconcileIff(states: seq<Sys>, actions: seq<Action>, j: nat) returns (i: nat)
    requires Trace(states, actions) && j < |actions| && actions[j].Interrupt?
    requires states[j].admission.ToInterrupt? && states[j].admission.phase == Preparing
    ensures var op := states[j].admission.op;
            && i < j && actions[i] == Reconcile(op) && op in states[i].records &&
                  states[i].records[op].phase == Preparing
            && (states[j].installs[op] == 0 <==> forall k :: i <= k < j ==> actions[k] != StartInstaller(op, true))
  {
    var op := states[j].admission.op;
    i := WasRead(states, actions, j, op, Preparing);
    TraceInv(states, actions, i);
    assert RecordInv(states[i], op, states[i].records[op]);
    InstallsCounted(states, actions, i, j, op);
  }

  // ---------- a result overwritten ----------

  /** Task 0 before its run holds the execution lock. */
  function Waiting(h: Content, active: Option<Id>, runs: map<Id, Run>, admission: Admission): Sys {
    Sys(map[0 := Record(Accepted, false, BySubmit)], active, runs, None, None, h, map[], {}, multiset{}, admission)
  }

  /** Task 0 while its run holds the execution lock: `made` says how far the backup, the pin and the
      installation have come. */
  function InRun(r: Record, run: Run, host: Content, made: nat, admission: Admission): Sys {
    Sys(map[0 := r], Some(0), map[0 := run], Some(0), if run.pc == InInstaller then Some(0) else None,
        host, if made >= 1 then map[0 := run.start] else map[], if made >= 2 then {0} else {},
        if made >= 3 then multiset{0} else multiset{}, admission)
  }

  /** The same while a reconciling process has read `preparing`. */
  function Watched(phase: Phase, pc: Pc, h: Content, host: Content, made: nat): Sys {
    InRun(Record(phase, false, ByRun), Run(pc, h), host, made, SawPhase(0, Preparing))
  }

  /** Task 0 after its run has ended. */
  function After(h: Content, h': Content, r: Record, admission: Admission): Sys {
    Sys(map[0 := r], Some(0), map[], None, None, h', map[0 := h], {0}, multiset{0}, admission)
  }

  /** A task that is submitted, read as preparing, installed with success, and then found inactive. */
  function Stage(k: nat, h: Content, h': Content): Sys {
    match k
    case 0 => Init(h)
    case 1 => Waiting(h, None, map[], ToActivate(0, Accepted))
    case 2 => Waiting(h, Some(0), map[], ToSchedule(0))
    case 3 => Waiting(h, Some(0), map[0 := Run(Starting, h)], Free)
    case 4 => InRun(Record(Accepted, false, BySubmit), Run(ToPrepare, h), h, 0, Free)
    case 5 => InRun(Record(Preparing, false, ByRun), Run(ToPreflight, h), h, 0, Free)
    case 6 => Watched(Preparing, ToPreflight, h, h, 0)
    case 7 => Watched(Preparing, ToPin, h, h, 1)
    case 8 => Watched(Preparing, ToAnnounce, h, h, 2)
    case 9 => Watched(Installing, ToInstall, h, h, 2)
    case 10 => Watched(Installing, InInstaller, h, h, 3)
    case 11 => Watched(Installing, InInstaller, h, h', 3)
    case 12 => Watched(Installing, ToVerify, h, h', 3)
    case 13 => Watched(Verifying, ToCheck, h, h', 3)
    case 14 => Watched(Verifying, ToSucceed, h, h', 3)
    case 15 => Watched(Succeeded, Cleaning, h, h', 3)
    case 16 => After(h, h', Record(Succeeded, false, ByRun), SawPhase(0, Preparing))
    case 17 => After(h, h', Record(Succeeded, false, ByRun), ToInterrupt(0, Preparing))
    case _ => After(h, h', Record(Failed, false, ByReconcile), Free)
  }

  function Script(k: nat, h': Content): Action {
    match k
    case 0 => SubmitNew(0, Done)
    case 1 => Activate(Done)
    case 2 => Schedule
    case 3 => Begin(0)
    case 4 => Prepare(0, Done)
    case 5 => Reconcile(0)
    case 6 => Preflight(0, true)
    case 7 => Pin(0, Done)
    case 8 => Announce(0, Done)
    case 9 => StartInstaller(0, true)
    case 10 => InstallerWrites(0, h')
    case 11 => InstallerEnds(0, true)
    case 12 => Verify(0, Done)
    case 13 => Check(0, true)
    case 14 => Succeed(0, Done)
    case 15 => End(0)
    case 16 => CheckUnit
    case _ => Interrupt(Done)
  }

  lemma SavesRecord(phase: Phase, pc: Pc, h: Content, host: Content, made: nat, newPhase: Phase)
    ensures var s := Watched(phase, pc, h, host, made);
            0 in s.records && Save(s, 0, newPhase, Done) == s.(records := map[0 := Record(newPhase, false, ByRun)])
  {
    var s := Watched(phase, pc, h, host, made);
    assert s.records[0 := Record(newPhase, false, ByRun)] == map[0 := Record(newPhase, false, ByRun)];
  }

  lemma GoesOn(newPhase: Phase, pc: Pc, h: Content, host: Content, made: nat, next: Pc)
    requires pc != InInstaller && next != InInstaller
    ensures var s := Watched(newPhase, pc, h, host, made);
            0 in s.runs && Goto(s, 0, next) == Watched(newPhase, next, h, host, made)
  {
    var s := Watched(newPhase, pc, h, host, made);
    assert s.runs[0 := Run(next, h)] == map[0 := Run(next, h)];
  }

  lemma Saves(phase: Phase, pc: Pc, h: Content, host: Content, made: nat, newPhase: Phase, next: Pc, handler: Pc)
    requires pc != InInstaller && next != InInstaller
    ensures var s := Watched(phase, pc, h, host, made);
            0 in s.runs && 0 in s.records && SaveAnd(s, 0, newPhase, Done, next, handler) ==
                Watched(newPhase, next, h, host, made)
  {
    SavesRecord(phase, pc, h, host, made, newPhase);
    GoesOn(newPhase, pc, h, host, made, next);
  }

  lemma Preparation(k: nat, h: Content, h': Content)
    requires k < 6
    ensures Follows(Stage(k, h, h'), Script(k, h'), Stage(k + 1, h, h'))
  {
  }

  lemma Securing(k: nat, h: Content, h': Content)
    requires 6 <= k < 8
    ensures Follows(Stage(k, h, h'), Script(k, h'), Stage(k + 1, h, h'))
  {
  }

  lemma Announcement(h: Content, h': Content)
    ensures Follows(Stage(8, h, h'), Script(8, h'), Stage(9, h, h'))
  {
    Saves(Preparing, ToAnnounce, h, h, 2, Installing, ToInstall, ToFail);
  }

  lemma Launch(h: Content, h': Content)
    ensures Follows(Stage(9, h, h'), Script(9, h'), Stage(10, h, h'))
  {
  }

  lemma Installation(k: nat, h: Content, h': Content)
    requires 10 <= k < 12
    ensures Follows(Stage(k, h, h'), Script(k, h'), Stage(k + 1, h, h'))
  {
  }

  lemma Verification(h: Content, h': Content)
    ensures Follows(Stage(12, h, h'), Script(12, h'), Stage(13, h, h'))
  {
    Saves(Installing, ToVerify, h, h', 3, Verifying, ToCheck, ToRollBack);
  }

  lemma Checking(h: Content, h': Content)
    ensures Follows(Stage(13, h, h'), Script(13, h'), Stage(14, h, h'))
  {
  }

  lemma Succeeds(h: Content, h': Content)
    ensures Follows(Watched(Verifying, ToSucceed, h, h', 3), Succeed(0, Done), Watched(Succeeded, Cleaning, h, h', 3))
  {
    Saves(Verifying, ToSucceed, h, h', 3, Succeeded, Cleaning, ToSucceedAgain);
    var s := Watched(Verifying, ToSucceed, h, h', 3);
    assert RunEnabled(s, Succeed(0, Done)) && RunNext(s, Succeed(0, Done)) == Watched(Succeeded, Cleaning, h, h', 3);
  }

  lemma Success(h: Content, h': Content)
    ensures Follows(Stage(14, h, h'), Script(14, h'), Stage(15, h, h'))
  {
    var s, t := Watched(Verifying, ToSucceed, h, h', 3), Watched(Succeeded, Cleaning, h, h', 3);
    assert Stage(14, h, h') == s && Stage(15, h, h') == t && Script(14, h') == Succeed(0, Done);
    Succeeds(h, h');
  }

  lemma Completion(h: Content, h': Content)
    ensures Follows(Stage(15, h, h'), Script(15, h'), Stage(16, h, h'))
  {
  }

  lemma Overwriting(k: nat, h: Content, h': Content)
    requires 16 <= k < 18
    ensures Follows(Stage(k, h, h'), Script(k, h'), Stage(k + 1, h, h'))
  {
  }

  /** `failed` written by a reconciling process does not mean untouched: it reads the phase before it
      asks whether the unit is active. A task can finish its installation in between, and its
      `succeeded` becomes `failed`. */
  lemma StaleReconcileOverwrites(h: Content, h': Content) returns (states: seq<Sys>, actions: seq<Action>)
    ensures Trace(states, actions) && |states| == 19
    ensures states[0].host == h && states[18].host == h' && states[18].installs[0] == 1
    ensures 0 in states[17].records && states[17].records[0].phase == Succeeded
    ensures 0 in states[18].records && states[18].records[0].phase == Failed
  {
    states := seq(19, k requires 0 <= k < 19 => Stage(k, h, h'));
    actions := seq(18, k requires 0 <= k < 18 => Script(k, h'));
    forall k | 0 <= k < 18 ensures Follows(states[k], actions[k], states[k + 1]) {
      if k < 6 {
        Preparation(k, h, h');
      } else if k < 8 {
        Securing(k, h, h');
      } else if k < 9 {
        Announcement(h, h');
      } else if k < 10 {
        Launch(h, h');
      } else if k < 12 {
        Installation(k, h, h');
      } else if k < 13 {
        Verification(h, h');
      } else if k < 14 {
        Checking(h, h');
      } else if k < 15 {
        Success(h, h');
      } else if k < 16 {
        Completion(h, h');
      } else {
        Overwriting(k, h, h');
      }
    }
  }
}
