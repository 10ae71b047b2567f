/**
 Running a control sequence (src/ControlOrchestrator/ControlOrchestratorManager.cc): steps in order,
 each with its command, its verification by polling and its retries, against an environment that
 may answer, fail, refuse, cancel or let time pass at will. `ValidateWorkflowConfig`
 (src/ControlOrchestrator/ControlOrchestratorStore.cc) gives the bounds this rests on.
 */
module ControlSequence {
  import opened Wrappers
  import opened Decimals
  import opened RequestPath

  datatype Source = Source(connId: nat, moduleName: string, connName: string, tag: string)
  datatype FailureAction = Stop | RetryCommand | OtherAction
  datatype Value = BoolValue(b: bool) | OtherValue(n: int)
  datatype Verification = Verification(source: Option<Source>, expected: Option<Value>,
                                       waitTimeout: nat, pollInterval: nat,
                                       action: FailureAction, maxRetries: nat, retryInterval: nat)
  datatype Step = Step(name: string, source: Option<Source>, useTrigger: bool, value: Option<Value>,
                       timeout: nat, verification: Option<Verification>, delayAfter: nat)
  datatype Config = Config(name: string, trigger: Option<Source>, steps: seq<Step>)
  datatype Request = Request(name: string, triggerValue: Option<Value>, id: string, timeout: nat)
  datatype Command = Command(source: Source, value: Value, timeout: nat, requestId: string)

  datatype CommandStatus = Undefined | Accepted | Rejected | NoRoute | AmbiguousRoute | TargetUnavailable
                         | Timeout | InternalError

  /** What a failure is reported with. */
  type FailureStatus = s: CommandStatus | s != Accepted && s != Undefined witness Rejected

  datatype Response = Response(accepted: bool, executedSteps: nat, failedStep: Option<nat>, status: CommandStatus)

  // ---------- validation ----------

  predicate NamedSource(s: Source) {
    s.moduleName != "" && s.connName != "" && s.tag != ""
  }

  predicate SameSource(a: Source, b: Source) {
    || (a.moduleName == b.moduleName && a.connName == b.connName && a.tag == b.tag)
    || (a.connId != 0 && a.connId == b.connId && a.tag == b.tag)
  }

  predicate ValidVerification(v: Verification) {
    && v.source.Some? && v.source.value.tag != ""
    && (v.source.value.connId != 0 || (v.source.value.moduleName != "" && v.source.value.connName != ""))
    && v.expected.Some? && v.expected.value.BoolValue?
    && v.waitTimeout > 0 && v.pollInterval > 0
    && v.action != OtherAction && v.maxRetries <= 100
  }

  predicate ValidStep(c: Config, s: Step) {
    && s.name != "" && s.source.Some? && NamedSource(s.source.value)
    && (s.useTrigger || s.value.Some?) && s.timeout > 0
    && (c.trigger.Some? ==> !SameSource(s.source.value, c.trigger.value))
    && (s.verification.Some? ==> ValidVerification(s.verification.value))
  }

  ghost predicate ValidConfig(c: Config) {
    && c.name != "" && 1 <= |c.steps| <= 8
    && (c.trigger.Some? ==> NamedSource(c.trigger.value))
    && (forall s :: s in c.steps ==> ValidStep(c, s))
    && (forall i, j :: 0 <= i < j < |c.steps| ==> c.steps[i].name != c.steps[j].name)
  }

  predicate Unnamed(s: Source) {
    s.moduleName == "" || s.connName == "" || s.tag == ""
  }

  /** The two sources may be one point, by names or by a connection id that is set. */
  predicate MayCoincide(a: Source, b: Source) {
    && a.tag == b.tag
    && ((a.moduleName, a.connName) == (b.moduleName, b.connName) || (a.connId > 0 && b.connId == a.connId))
  }

  /** What is wrong with a verification: no status point or one without tag, and neither names nor id; no
      boolean to expect; no time to wait; an unknown action; too many retries. */
  predicate BadVerification(v: Verification) {
    || v.source == None || v.source.value.tag == ""
    || (v.source.value.connId == 0 && (v.source.value.moduleName == "" || v.source.value.connName == ""))
    || v.expected == None || v.expected.value.OtherValue?
    || v.waitTimeout == 0 || v.pollInterval == 0
    || v.action == OtherAction || v.maxRetries > 100
  }

  predicate BadStep(c: Config, s: Step) {
    || s.name == "" || s.source == None || Unnamed(s.source.value)
    || (!s.useTrigger && s.value == None) || s.timeout == 0
    || (c.trigger.Some? && MayCoincide(s.source.value, c.trigger.value))
    || (s.verification.Some? && BadVerification(s.verification.value))
  }

  /** A configuration is valid exactly if there is nothing wrong with it. */
  lemma ValidIffNothingWrong(c: Config)
    ensures !ValidConfig(c) <==>
              || c.name == "" || c.steps == [] || |c.steps| > 8
              || (c.trigger.Some? && Unnamed(c.trigger.value))
              || (exists i :: 0 <= i < |c.steps| && BadStep(c, c.steps[i]))
              || (exists i, j :: 0 <= i < j < |c.steps| && c.steps[i].name == c.steps[j].name)
  {
    forall s ensures ValidStep(c, s) <==> !BadStep(c, s) {
    }
    if exists s :: s in c.steps && !ValidStep(c, s) {
      var s :| s in c.steps && !ValidStep(c, s);
      var i :| 0 <= i < |c.steps| && c.steps[i] == s;
      assert BadStep(c, c.steps[i]);
    }
  }

  method ValidateWorkflowConfig(c: Config) returns (ok: bool)
    ensures ok <==> ValidConfig(c)
  {
    if c.name == "" {
      return false;
    }
    if |c.steps| < 1 || |c.steps| > 8 {
      return false;
    }
    if c.trigger.Some? && !NamedSource(c.trigger.value) {
      return false;
    }
    var names: set<string> := {};
    for i := 0 to |c.steps|
      invariant names == set k | 0 <= k < i :: c.steps[k].name
      invariant forall k :: 0 <= k < i ==> ValidStep(c, c.steps[k])
      invariant forall k, l :: 0 <= k < l < i ==> c.steps[k].name != c.steps[l].name
    {
      var step := c.steps[i];
      assert step in c.steps;
      if step.name == "" || step.name in names {
        return false;
      }
      names := names + {step.name};
      if !ValidStep(c, step) {
        return false;
      }
    }
    return true;
  }

  // ---------- what happens ----------

  /** How sending a command ends. */
  datatype Reply = CallFailed(failure: FailureStatus) | Answered(status: CommandStatus)

  datatype Reason = BetweenReadings | BeforeRetry | AfterStep

  /** Commands sent, commands accepted or not, readings of a status point, and waits, by step and attempt.
      A reading is `None` when the call fails or there is no boolean value. */
  datatype Event =
    | Issued(step: nat, attempt: nat, command: Command)
    | Taken(step: nat, attempt: nat)
    | Refused(step: nat, attempt: nat, reply: Reply)
    | Observed(step: nat, attempt: nat, source: Source, value: Option<bool>)
    | Waited(step: nat, attempt: nat, reason: Reason, duration: nat)

  function Retries(s: Step): nat {
    if s.verification.Some? && s.verification.value.action == RetryCommand then s.verification.value.maxRetries else 0
  }

  /** The reading gives the status point of the verification its expected value. */
  predicate Meets(v: Verification, source: Source, value: Option<bool>) {
    v.source == Some(source) && value.Some? && v.expected == Some(BoolValue(value.value))
  }

  /** After attempt `a` at step `i`, the step's status point was read with its expected value. */
  ghost predicate Confirmed(c: Config, log: seq<Event>, i: nat, a: nat)
    requires i < |c.steps|
  {
    && c.steps[i].verification.Some?
    && exists source, value :: Observed(i, a, source, value) in log &&
          Meets(c.steps[i].verification.value, source, value)
  }

  /** Some attempt at step `i` was accepted and, if the step has a verification, verified. */
  ghost predicate Completed(c: Config, log: seq<Event>, i: nat)
    requires i < |c.steps|
  {
    exists a: nat :: Taken(i, a) in log && (c.steps[i].verification.Some? ==> Confirmed(c, log, i, a))
  }

  /** No attempt at the step has met its verification, or been accepted if it has none. */
  ghost predicate Unfinished(c: Config, log: seq<Event>, i: nat)
    requires i < |c.steps|
  {
    forall a: nat :: !Confirmed(c, log, i, a) && (c.steps[i].verification.None? ==> Taken(i, a) !in log)
  }

  ghost predicate CompletedBefore(c: Config, log: seq<Event>, i: nat)
    requires i <= |c.steps|
  {
    forall j: nat :: j < i ==> Completed(c, log, j)
  }

  /** Nothing was sent yet for step `i` from attempt `a` on, nor for any later step. */
  ghost predicate Untried(log: seq<Event>, i: nat, a: nat) {
    forall j: nat, b: nat, d :: Issued(j, b, d) in log ==> j < i || (j == i && b < a)
  }

  /** The decimal text of a number. */
  predicate Writes(text: string, n: nat) {
    text != "" && AllDigits(text) && text[0] != '0' && Number(FromText(text)) == n
  }

  /** The id of a request, or the name of the sequence if it has none, and the numbers of step and attempt,
      in front of the path of the request and the sequence itself. */
  ghost predicate IdFor(r: Request, i: nat, a: nat, id: string) {
    exists x, y :: Writes(x, i + 1) && Writes(y, a + 1) && id == NumberedId(r, x, y)
  }

  function NumberedId(r: Request, x: string, y: string): string {
    var base := if Split(r.id).base == "" then r.name else Split(r.id).base;
    Made(base + "-" + x + "-" + y, Split(r.id).path + [r.name])
  }

  /** The command of an attempt at a step: the step's own source, or the internal one of a triggered
      sequence, the value the step or the trigger gives, at most the step's timeout, and its own id. */
  ghost predicate CommandOf(c: Config, r: Request, i: nat, a: nat, d: Command)
    requires i < |c.steps|
  {
    var s := c.steps[i];
    && (if c.trigger.Some? then d.source == InternalSource(r.name, s.name) else s.source == Some(d.source))
    && (if s.useTrigger then r.triggerValue == Some(d.value) else s.value == Some(d.value))
    && d.timeout <= s.timeout
    && IdFor(r, i, a, d.requestId)
  }

  function InternalSource(sequence: string, step: string): Source {
    Source(0, "ControlOrchestrator", "control-orchestrator", "step:" + sequence + ":" + step)
  }

  /** The pause that the step before asks for was made. */
  predicate Paused(c: Config, log: seq<Event>, i: nat)
    requires i < |c.steps|
  {
    i > 0 && c.steps[i - 1].delayAfter > 0 ==> Waited(i - 1, 0, AfterStep, c.steps[i - 1].delayAfter) in log
  }

  /** Attempt `a` was accepted, and the wait before the next one was made. */
  predicate RetryDue(c: Config, log: seq<Event>, i: nat, a: nat)
    requires i < |c.steps|
  {
    && Taken(i, a) in log && c.steps[i].verification.Some?
    && var interval := c.steps[i].verification.value.retryInterval;
    interval > 0 ==> Waited(i, a, BeforeRetry, interval) in log
  }

  ghost predicate MayWait(c: Config, before: seq<Event>, i: nat, a: nat, reason: Reason, n: nat)
    requires i < |c.steps|
  {
    match reason
    case BetweenReadings =>
      && before != [] && before[|before| - 1].Observed?
      && before[|before| - 1].step == i && before[|before| - 1].attempt == a
      && c.steps[i].verification.Some? && n == c.steps[i].verification.value.pollInterval
    case BeforeRetry =>
      && Taken(i, a) in before && Untried(before, i, a + 1) && Unfinished(c, before, i) && a < Retries(c.steps[i])
      && n == c.steps[i].verification.value.retryInterval
    case AfterStep =>
      && CompletedBefore(c, before, i + 1) && Untried(before, i + 1, 0) && i + 1 < |c.steps|
      && n <= c.steps[i].delayAfter
  }

  /** What may happen after `before`: a command only for a step that is not finished, after all earlier
      ones are and the pause between, and again only after the attempt before was accepted and the wait;
      a reading only of the step's own status point, after the last command sent was accepted, and no more
      once it had the expected value; a wait between readings only right after one. */
  ghost predicate MayFollow(c: Config, r: Request, before: seq<Event>, e: Event) {
    match e
    case Issued(i, a, d) =>
      && i < |c.steps| && a <= Retries(c.steps[i]) && Untried(before, i, a) && CompletedBefore(c, before, i)
      && Paused(c, before, i) && (a > 0 ==> RetryDue(c, before, i, a - 1)) && Unfinished(c, before, i)
      && CommandOf(c, r, i, a, d)
    case Taken(i, a) =>
      i < |c.steps| && (exists d :: Issued(i, a, d) in before) && forall reply :: Refused(i, a, reply) !in before
    case Refused(i, a, _) => i < |c.steps| && (exists d :: Issued(i, a, d) in before) && Taken(i, a) !in before
    case Observed(i, a, source, _) =>
      && i < |c.steps| && c.steps[i].verification.Some? && c.steps[i].verification.value.source == Some(source)
      && Taken(i, a) in before && Untried(before, i, a + 1) && Unfinished(c, before, i)
    case Waited(i, a, reason, n) => i < |c.steps| && MayWait(c, before, i, a, reason, n)
  }

  ghost predicate Proper(c: Config, r: Request, log: seq<Event>) {
    forall k :: 0 <= k < |log| ==> MayFollow(c, r, log[..k], log[k])
  }

  lemma ProperMore(c: Config, r: Request, log: seq<Event>, e: Event)
    requires Proper(c, r, log) && MayFollow(c, r, log, e)
    ensures Proper(c, r, log + [e])
  {
    var more := log + [e];
    forall k | 0 <= k < |more|
      ensures MayFollow(c, r, more[..k], more[k])
    {
      if k < |log| {
        assert more[..k] == log[..k];
      } else {
        assert more[..k] == log;
      }
    }
  }

  lemma CompletedStays(c: Config, log: seq<Event>, more: seq<Event>, i: nat)
    requires i <= |c.steps| && CompletedBefore(c, log, i)
    ensures CompletedBefore(c, log + more, i)
  {
    forall j: nat | j < i ensures Completed(c, log + more, j) {
      assert Completed(c, log, j);
      var a: nat :| Taken(j, a) in log && (c.steps[j].verification.Some? ==> Confirmed(c, log, j, a));
      assert Taken(j, a) in log + more;
      if c.steps[j].verification.Some? {
        var source, value :| Observed(j, a, source, value) in log &&
            Meets(c.steps[j].verification.value, source, value);
        assert Observed(j, a, source, value) in log + more;
      }
    }
  }

  /** How many commands were sent for a step. */
  function Sent(log: seq<Event>, i: nat): nat {
    if log == [] then 0
    else
      var e := log[|log| - 1];
      Sent(log[..|log| - 1], i) + if e.Issued? && e.step == i then 1 else 0
  }

  /** Every command is a later attempt than the commands of its step before it. */
  ghost predicate Ascending(log: seq<Event>) {
    forall k :: 0 <= k < |log| && log[k].Issued? ==> Untried(log[..k], log[k].step, log[k].attempt)
  }

  lemma {:induction false} SentBelow(log: seq<Event>, i: nat, a: nat)
    requires Ascending(log) && forall b: nat, d :: Issued(i, b, d) in log ==> b < a
    ensures Sent(log, i) <= a
  {
    if log != [] {
      var n := |log| - 1;
      var e := log[n];
      var before := log[..n];
      assert log == before + [e];
      forall k | 0 <= k < n && before[k].Issued? ensures Untried(before[..k], before[k].step, before[k].attempt) {
        assert before[..k] == log[..k];
      }
      SentBelow(before, i, if e.Issued? && e.step == i then e.attempt else a);
    }
  }

  /** No step is sent more than once and then once per allowed retry. */
  lemma SentAtMost(c: Config, r: Request, log: seq<Event>, i: nat)
    requires Proper(c, r, log) && i < |c.steps|
    ensures var v := c.steps[i].verification;
            Sent(log, i) <= 1 + if v.Some? && v.value.action == RetryCommand then v.value.maxRetries else 0
  {
    forall b: nat, d | Issued(i, b, d) in log
      ensures b < 1 + Retries(c.steps[i])
    {
      var k :| 0 <= k < |log| && log[k] == Issued(i, b, d);
      assert MayFollow(c, r, log[..k], log[k]);
    }
    forall k | 0 <= k < |log| && log[k].Issued? ensures Untried(log[..k], log[k].step, log[k].attempt) {
      assert MayFollow(c, r, log[..k], log[k]);
    }
    SentBelow(log, i, 1 + Retries(c.steps[i]));
  }

  /** Whenever a command is sent, every earlier step has been completed, the pause between has been made, and
      its own step has not been completed: a retry follows only an accepted attempt and the wait after it,
      and only while no attempt has met the verification. */
  lemma SentInOrder(c: Config, r: Request, log: seq<Event>, k: nat)
    requires Proper(c, r, log) && k < |log| && log[k].Issued?
    ensures log[k].step < |c.steps| && CompletedBefore(c, log[..k], log[k].step) && Unfinished(c, log[..k], log[k].step)
    ensures log[k].attempt > 0 ==> RetryDue(c, log[..k], log[k].step, log[k].attempt - 1)
    ensures Paused(c, log[..k], log[k].step)
    ensures forall l :: 0 <= l < k && log[l].Issued? ==>
              log[l].step < log[k].step || (log[l].step == log[k].step && log[l].attempt < log[k].attempt)
  {
    assert MayFollow(c, r, log[..k], log[k]);
    forall l | 0 <= l < k && log[l].Issued?
      ensures log[l].step < log[k].step || (log[l].step == log[k].step && log[l].attempt < log[k].attempt)
    {
      assert log[l] == Issued(log[l].step, log[l].attempt, log[l].command);
      assert log[l] in log[..k];
    }
  }

  /** What a command that was sent asks for, and of whom. */
  lemma CommandsAre(c: Config, r: Request, log: seq<Event>, k: nat)
    requires Proper(c, r, log) && k < |log| && log[k].Issued?
    ensures log[k].step < |c.steps|
    ensures var d, s := log[k].command, c.steps[log[k].step];
            && (c.trigger == None ==> s.source == Some(d.source))
            && (c.trigger != None ==>
                  && d.source.connId == 0 && d.source.moduleName == "ControlOrchestrator"
                  && d.source.connName == "control-orchestrator" && d.source.tag == "step:" + r.name + ":" + s.name)
            && Some(d.value) == (if s.useTrigger then r.triggerValue else s.value)
            && d.timeout <= s.timeout
  {
    assert MayFollow(c, r, log[..k], log[k]);
  }

  lemma NoDash(x: string, y: string)
    requires AllDigits(x)
    ensures forall p :: 0 <= p < |x| ==> (x + "-" + y)[p] != '-'
  {
    forall p | 0 <= p < |x| ensures (x + "-" + y)[p] != '-' {
      assert IsDigit(x[p]) && (x + "-" + y)[p] == x[p];
    }
  }

  lemma NumbersDiffer(x: string, y: string, x': string, y': string)
    requires AllDigits(x) && AllDigits(x') && x + "-" + y == x' + "-" + y'
    ensures x == x' && y == y'
  {
    var w := x + "-" + y;
    NoDash(x, y);
    NoDash(x', y');
    assert w[|x|] == '-' && w[|x'|] == '-';
    assert x == w[..|x|] && y == w[|x| + 1..];
    assert x' == w[..|x'|] && y' == w[|x'| + 1..];
  }

  lemma SameFront(a: string, b: string, tail: string)
    requires a + tail == b + tail
    ensures a == b
  {
    assert |a| == |b|;
    assert a == (a + tail)[..|a|] && b == (b + tail)[..|b|];
  }

  lemma SameBack(front: string, a: string, b: string)
    requires front + a == front + b
    ensures a == b
  {
    assert a == (front + a)[|front|..] && b == (front + b)[|front|..];
  }

  lemma Regroup(a: string, x: string, y: string, tail: string)
    ensures a + "-" + x + "-" + y + tail == (a + "-") + ((x + "-" + y) + tail)
  {
  }

  lemma SameNumbers(r: Request, x: string, y: string, x': string, y': string)
    requires AllDigits(x) && AllDigits(x') && NumberedId(r, x, y) == NumberedId(r, x', y')
    ensures x == x' && y == y'
  {
    var base := if Split(r.id).base == "" then r.name else Split(r.id).base;
    var path := Encoded(Split(r.id).path + [r.name]);
    Associative(base + "-" + x + "-" + y, MARKER, path);
    Associative(base + "-" + x' + "-" + y', MARKER, path);
    Regroup(base, x, y, MARKER + path);
    Regroup(base, x', y', MARKER + path);
    SameBack(base + "-", (x + "-" + y) + (MARKER + path), (x' + "-" + y') + (MARKER + path));
    SameFront(x + "-" + y, x' + "-" + y', MARKER + path);
    NumbersDiffer(x, y, x', y');
  }

  /** The numbers of step and attempt can be read off a request id. */
  lemma IdsDiffer(r: Request, i: nat, a: nat, j: nat, b: nat, id: string)
    requires IdFor(r, i, a, id) && IdFor(r, j, b, id)
    ensures i == j && a == b
  {
    var x, y :| Writes(x, i + 1) && Writes(y, a + 1) && id == NumberedId(r, x, y);
    var x', y' :| Writes(x', j + 1) && Writes(y', b + 1) && id == NumberedId(r, x', y');
    SameNumbers(r, x, y, x', y');
  }

  /** No two commands of a call have one request id, and each leads to the path of the call. */
  lemma RequestIdsDiffer(c: Config, r: Request, log: seq<Event>, k: nat, l: nat)
    requires Proper(c, r, log) && k < l < |log| && log[k].Issued? && log[l].Issued?
    ensures log[k].command.requestId != log[l].command.requestId
    ensures CalledBy(log[k].command.requestId, r.id, r.name)
  {
    assert MayFollow(c, r, log[..k], log[k]);
    assert MayFollow(c, r, log[..l], log[l]);
    SentInOrder(c, r, log, l);
    var x, y :| Writes(x, log[k].step + 1) && Writes(y, log[k].attempt + 1) &&
        log[k].command.requestId == NumberedId(r, x, y);
    if log[k].command.requestId == log[l].command.requestId {
      IdsDiffer(r, log[k].step, log[k].attempt, log[l].step, log[l].attempt, log[l].command.requestId);
    }
  }

  lemma IssuedBefore(log: seq<Event>, i: nat, a: nat, e: Event)
    requires Untried(log, i, a) && e in log
    ensures e.Issued? ==> e.step < i || (e.step == i && e.attempt < a)
  {
    if e.Issued? {
      assert e == Issued(e.step, e.attempt, e.command);
    }
  }

  ghost predicate NothingSent(log: seq<Event>, k: int, l: int) {
    forall m :: 0 <= m < |log| && k < m < l ==> !log[m].Issued?
  }

  /** A reading belongs to the attempt it is counted for: that attempt was accepted before it, and no
      command was sent in between. */
  lemma ReadingFollowsItsCommand(c: Config, r: Request, log: seq<Event>, l: nat)
    requires Proper(c, r, log) && l < |log| && log[l].Observed?
    ensures exists k :: 0 <= k < l && log[k] == Taken(log[l].step, log[l].attempt) && NothingSent(log, k, l)
  {
    var i, a := log[l].step, log[l].attempt;
    assert MayFollow(c, r, log[..l], log[l]);
    var k :| 0 <= k < l && log[..l][k] == Taken(i, a);
    assert MayFollow(c, r, log[..k], log[k]);
    var d :| Issued(i, a, d) in log[..k];
    forall m | k < m < l ensures !log[m].Issued? {
      assert MayFollow(c, r, log[..m], log[m]) && Issued(i, a, d) in log[..m] && log[m] in log[..l];
      IssuedBefore(log[..l], i, a + 1, log[m]);
    }
  }

  // ---------- the environment ----------

  class Environment {
    var now: nat
    var gone: bool
    ghost var log: seq<Event>

    /** Time passes. */
    method Now() returns (t: nat)
      modifies this`now
      ensures t == now >= old(now)
    {
      var passed: int := *;
      if passed > 0 {
        now := now + passed;
      }
      t := now;
    }

    /** Whether the caller has cancelled or its deadline has passed, which lasts. */
    method ContextStopped() returns (stopped: bool)
      modifies this`now, this`gone
      ensures now >= old(now) && stopped == gone && (old(gone) ==> gone)
    {
      var _ := Now();
      if !gone {
        gone := *;
      }
      stopped := gone;
    }

    method DeadlineReached(deadline: Option<nat>) returns (reached: bool)
      modifies this`now
      ensures now >= old(now) && (reached <==> TimeUp(deadline, now))
    {
      var t := Now();
      reached := deadline.Some? && t >= deadline.value;
    }

    /** Sends a command; any answer is possible. */
    method Execute(ghost i: nat, ghost a: nat, d: Command) returns (reply: Reply)
      modifies this`now, this`log
      ensures now >= old(now)
      ensures log == old(log) + [Issued(i, a, d)] + [Outcome(i, a, reply)]
    {
      var _ := Now();
      reply := *;
      log := log + [Issued(i, a, d)] + [Outcome(i, a, reply)];
    }

    /** Reads the status point; any answer is possible. */
    method ReadStatus(ghost i: nat, ghost a: nat, source: Source) returns (failed: bool, value: Option<bool>)
      modifies this`now, this`log
      ensures now >= old(now)
      ensures failed ==> value == None
      ensures log == old(log) + [Observed(i, a, source, value)]
    {
      var _ := Now();
      failed, value := *, *;
      if failed {
        value := None;
      }
      log := log + [Observed(i, a, source, value)];
    }

    /** Sleeps in short pieces and wakes early when the context stops. It ends before its time only then,
        or at the deadline. */
    method InterruptibleSleep(ghost i: nat, ghost a: nat, ghost reason: Reason, duration: nat, deadline: Option<nat>)
      returns (rested: bool)
      modifies this
      ensures now >= old(now) && (old(gone) ==> gone)
      ensures rested ==> now >= old(now) + duration && !TimeUp(deadline, now)
      ensures !rested ==> gone || TimeUp(deadline, now)
      ensures log == old(log) + [Waited(i, a, reason, duration)]
    {
      log := log + [Waited(i, a, reason, duration)];
      var start := Now();
      var wakeAt := start + duration;
      if deadline.Some? && deadline.value < wakeAt {
        wakeAt := deadline.value;
      }
      var t := Now();
      while t < wakeAt
        modifies this`now, this`gone
        invariant t == now >= start && (old(gone) ==> gone)
        decreases wakeAt - t
      {
        var stopped := ContextStopped();
        if stopped {
          return false;
        }
        now := now + 1;
        t := Now();
      }
      var stopped := ContextStopped();
      var reached := DeadlineReached(deadline);
      return !stopped && !reached;
    }
  }

  predicate TimeUp(deadline: Option<nat>, now: nat) {
    deadline.Some? && now >= deadline.value
  }

  /** What the answer to a command adds to the log. */
  function Outcome(i: nat, a: nat, reply: Reply): Event {
    if reply == Answered(Accepted) then Taken(i, a) else Refused(i, a, reply)
  }
}
