/**
 The loops that run a control sequence (src/ControlOrchestrator/ControlOrchestratorManager.cc) against
 the environment of `ControlSequence`: attempts, verification by polling, retries, pauses. Whatever
 happens, the log stays proper, and every failure has one of the reasons it may have.
 */
module ControlExecution {
  import opened Wrappers
  import opened Decimals
  import opened RequestPath
  import opened ControlSequence

  datatype Progress = Passed | Failed(status: FailureStatus) | Interrupted

  // ---------- what one more event changes ----------

  /** The event is neither an acceptance nor a reading, so no step comes further by it. */
  predicate Idle(e: Event) {
    !e.Taken? && !e.Observed?
  }

  lemma IdleConfirms(c: Config, log: seq<Event>, e: Event, i: nat, a: nat)
    requires Idle(e) && i < |c.steps|
    ensures Confirmed(c, log + [e], i, a) <==> Confirmed(c, log, i, a)
  {
    if c.steps[i].verification.Some? {
      var v := c.steps[i].verification.value;
      if s, x :| Observed(i, a, s, x) in log && Meets(v, s, x) {
        assert Observed(i, a, s, x) in log + [e];
      }
      if s, x :| Observed(i, a, s, x) in log + [e] && Meets(v, s, x) {
        assert Observed(i, a, s, x) in log;
      }
    }
  }

  lemma IdleKeeps(c: Config, log: seq<Event>, e: Event, i: nat)
    requires Idle(e) && i < |c.steps|
    ensures Unfinished(c, log, i) <==> Unfinished(c, log + [e], i)
    ensures Executed(log, i) <==> Executed(log + [e], i)
  {
    forall a: nat ensures Confirmed(c, log + [e], i, a) <==> Confirmed(c, log, i, a) {
      IdleConfirms(c, log, e, i, a);
    }
    forall a: nat ensures Taken(i, a) in log + [e] <==> Taken(i, a) in log {
    }
  }

  /** Some command of the step was accepted, which counts it as executed. */
  ghost predicate Executed(log: seq<Event>, i: nat) {
    exists a: nat :: Taken(i, a) in log
  }

  // ---------- where a step stands ----------

  /** What the log says when step `i` is about to be tried for the `a`-th time. */
  ghost predicate Ready(c: Config, r: Request, log: seq<Event>, i: nat, a: nat) {
    && i < |c.steps| && a <= Retries(c.steps[i])
    && Proper(c, r, log) && CompletedBefore(c, log, i) && Untried(log, i, a) && Paused(c, log, i)
    && (a > 0 ==> RetryDue(c, log, i, a - 1)) && Unfinished(c, log, i)
  }

  /** After attempt `a` at step `i` was sent. */
  ghost predicate Trying(c: Config, r: Request, log: seq<Event>, i: nat, a: nat) {
    && i < |c.steps| && a <= Retries(c.steps[i])
    && Proper(c, r, log) && CompletedBefore(c, log, i) && Untried(log, i, a + 1) && Paused(c, log, i)
  }

  lemma IssuedNext(c: Config, r: Request, log: seq<Event>, i: nat, a: nat, d: Command)
    requires Ready(c, r, log, i, a) && CommandOf(c, r, i, a, d)
    ensures Trying(c, r, log + [Issued(i, a, d)], i, a) && Unfinished(c, log + [Issued(i, a, d)], i)
  {
    ProperMore(c, r, log, Issued(i, a, d));
    CompletedStays(c, log, [Issued(i, a, d)], i);
    IdleKeeps(c, log, Issued(i, a, d), i);
  }

  lemma TakenNext(c: Config, r: Request, log: seq<Event>, i: nat, a: nat)
    requires Trying(c, r, log, i, a) && MayFollow(c, r, log, Taken(i, a))
    ensures Trying(c, r, log + [Taken(i, a)], i, a)
  {
    ProperMore(c, r, log, Taken(i, a));
    CompletedStays(c, log, [Taken(i, a)], i);
  }

  lemma RefusedNext(c: Config, r: Request, log: seq<Event>, i: nat, a: nat, reply: Reply)
    requires Trying(c, r, log, i, a) && MayFollow(c, r, log, Refused(i, a, reply)) && Unfinished(c, log, i)
    ensures Trying(c, r, log + [Refused(i, a, reply)], i, a) && Unfinished(c, log + [Refused(i, a, reply)], i)
  {
    ProperMore(c, r, log, Refused(i, a, reply));
    CompletedStays(c, log, [Refused(i, a, reply)], i);
    IdleKeeps(c, log, Refused(i, a, reply), i);
  }

  /** An attempt that was not sent yet was not answered either. */
  lemma NotAnsweredYet(c: Config, r: Request, log: seq<Event>, i: nat, a: nat)
    requires Proper(c, r, log) && Untried(log, i, a)
    ensures Taken(i, a) !in log && forall reply :: Refused(i, a, reply) !in log
  {
    forall k: nat | k < |log| && (log[k].Taken? || log[k].Refused?)
      ensures log[k].step != i || log[k].attempt != a
    {
      AnswerWasIssued(c, r, log, k);
    }
  }

  lemma AnswerWasIssued(c: Config, r: Request, log: seq<Event>, k: nat)
    requires Proper(c, r, log) && k < |log| && (log[k].Taken? || log[k].Refused?)
    ensures exists d :: Issued(log[k].step, log[k].attempt, d) in log
  {
    assert MayFollow(c, r, log[..k], log[k]);
    var d :| Issued(log[k].step, log[k].attempt, d) in log[..k];
    assert Issued(log[k].step, log[k].attempt, d) in log;
  }

  lemma SentNext(c: Config, r: Request, log: seq<Event>, i: nat, a: nat, d: Command)
    requires Ready(c, r, log, i, a) && CommandOf(c, r, i, a, d)
    ensures var one := log + [Issued(i, a, d)];
            && Trying(c, r, one, i, a) && Unfinished(c, one, i)
            && Taken(i, a) !in one && (forall reply :: Refused(i, a, reply) !in one) && Issued(i, a, d) in one
  {
    NotAnsweredYet(c, r, log, i, a);
    IssuedNext(c, r, log, i, a, d);
  }

  /** The log after a command was sent and answered. */
  lemma AnsweredNext(c: Config, r: Request, log: seq<Event>, i: nat, a: nat, d: Command, reply: Reply)
    requires Ready(c, r, log, i, a) && CommandOf(c, r, i, a, d)
    ensures var after := log + [Issued(i, a, d)] + [Outcome(i, a, reply)];
            && Trying(c, r, after, i, a) && (Taken(i, a) in after <==> reply == Answered(Accepted))
            && (c.steps[i].verification.Some? || reply != Answered(Accepted) ==> Unfinished(c, after, i))
            && (forall b: nat :: Taken(i, b) in after <==>
                  Taken(i, b) in log || (b == a && reply == Answered(Accepted)))
  {
    var one := log + [Issued(i, a, d)];
    SentNext(c, r, log, i, a, d);
    if reply == Answered(Accepted) {
      TakenNext(c, r, one, i, a);
      if c.steps[i].verification.Some? {
        AcceptedUnfinished(c, one, i, a);
      }
    } else {
      RefusedNext(c, r, one, i, a, reply);
    }
  }

  /** An acceptance alone does not finish a step that has a verification. */
  lemma AcceptedUnfinished(c: Config, log: seq<Event>, i: nat, a: nat)
    requires i < |c.steps| && c.steps[i].verification.Some? && Unfinished(c, log, i)
    ensures Unfinished(c, log + [Taken(i, a)], i)
  {
    forall b: nat ensures !Confirmed(c, log + [Taken(i, a)], i, b) {
      assert !Confirmed(c, log, i, b);
      forall s, x | Observed(i, b, s, x) in log + [Taken(i, a)] ensures Observed(i, b, s, x) in log {
      }
    }
  }

  // ---------- polling ----------

  /** Nothing but readings and waits after attempt `a` at step `i`. */
  predicate Quiet(log: seq<Event>, i: nat, a: nat) {
    forall e :: e in log ==> (e.Observed? || e.Waited?) && e.step == i && e.attempt == a
  }

  /** Since `start` nothing but readings and waits after attempt `a` at step `i` happened. */
  predicate OnlyPolled(start: seq<Event>, log: seq<Event>, i: nat, a: nat) {
    start <= log && Quiet(log[|start|..], i, a)
  }

  /** While the status point is polled after attempt `a` at step `i` and was not yet as expected. */
  ghost predicate Polling(c: Config, r: Request, start: seq<Event>, log: seq<Event>, i: nat, a: nat) {
    && Trying(c, r, log, i, a) && Taken(i, a) in log && c.steps[i].verification.Some?
    && Unfinished(c, log, i) && OnlyPolled(start, log, i, a)
  }

  /** Polling accepts no command. */
  lemma PollingKeepsTaken(start: seq<Event>, log: seq<Event>, i: nat, a: nat)
    requires OnlyPolled(start, log, i, a)
    ensures forall j: nat, b: nat :: Taken(j, b) in log <==> Taken(j, b) in start
  {
    assert log == start + log[|start|..];
  }

  /** Event `k` is a reading that does not meet the verification, or the wait right after one. */
  predicate PollAt(v: Verification, polls: seq<Event>, i: nat, a: nat, k: nat)
    requires k < |polls|
  {
    match polls[k]
    case Observed(j, b, source, value) => j == i && b == a && v.source == Some(source) && !Meets(v, source, value)
    case Waited(j, b, reason, n) =>
      && j == i && b == a && reason == BetweenReadings && n == v.pollInterval
      && k > 0 && polls[k - 1].Observed?
    case _ => false
  }

  ghost predicate Polls(v: Verification, polls: seq<Event>, i: nat, a: nat) {
    forall k :: 0 <= k < |polls| ==> PollAt(v, polls, i, a, k)
  }

  ghost predicate PollsUntilMet(v: Verification, polls: seq<Event>, i: nat, a: nat) {
    && polls != [] && Polls(v, polls[..|polls| - 1], i, a)
    && var e := polls[|polls| - 1];
    e.Observed? && e.step == i && e.attempt == a && Meets(v, e.source, e.value)
  }

  lemma PollsMore(v: Verification, polls: seq<Event>, i: nat, a: nat, e: Event)
    requires Polls(v, polls, i, a) && PollAt(v, polls + [e], i, a, |polls|)
    ensures Polls(v, polls + [e], i, a)
  {
    var more := polls + [e];
    forall k | 0 <= k < |more| ensures PollAt(v, more, i, a, k) {
      if k < |polls| {
        assert PollAt(v, polls, i, a, k);
      }
    }
  }

  lemma PollsPrefix(v: Verification, polls: seq<Event>, i: nat, a: nat, n: nat)
    requires Polls(v, polls, i, a) && n <= |polls|
    ensures Polls(v, polls[..n], i, a)
  {
    forall k | 0 <= k < n ensures PollAt(v, polls[..n], i, a, k) {
      assert PollAt(v, polls, i, a, k);
    }
  }

  lemma PollsAreQuiet(v: Verification, polls: seq<Event>, i: nat, a: nat)
    ensures Polls(v, polls, i, a) ==> Quiet(polls, i, a)
    ensures PollsUntilMet(v, polls, i, a) ==> Quiet(polls, i, a)
  {
    forall e | e in polls
      ensures Polls(v, polls, i, a) ==> (e.Observed? || e.Waited?) && e.step == i && e.attempt == a
    {
      var k :| 0 <= k < |polls| && polls[k] == e;
      assert Polls(v, polls, i, a) ==> PollAt(v, polls, i, a, k);
    }
    if PollsUntilMet(v, polls, i, a) {
      PollsAreQuiet(v, polls[..|polls| - 1], i, a);
      assert polls == polls[..|polls| - 1] + [polls[|polls| - 1]];
    }
  }

  /** Polling sends nothing. */
  lemma QuietSends(start: seq<Event>, polls: seq<Event>, i: nat, a: nat)
    requires Quiet(polls, i, a)
    ensures OnlyPolled(start, start + polls, i, a)
    ensures Untried(start, i, a + 1) ==> Untried(start + polls, i, a + 1)
  {
    assert (start + polls)[|start|..] == polls;
  }

  /** Polling without success finishes nothing. */
  lemma PollsFinishNothing(c: Config, start: seq<Event>, polls: seq<Event>, i: nat, a: nat)
    requires i < |c.steps| && c.steps[i].verification.Some? && Unfinished(c, start, i)
    requires Polls(c.steps[i].verification.value, polls, i, a)
    ensures Unfinished(c, start + polls, i)
  {
    var v := c.steps[i].verification.value;
    forall b: nat ensures !Confirmed(c, start + polls, i, b) {
      assert !Confirmed(c, start, i, b);
      forall s, x | Observed(i, b, s, x) in start + polls ensures !Meets(v, s, x) {
        var k :| 0 <= k < |start + polls| && (start + polls)[k] == Observed(i, b, s, x);
        if k >= |start| {
          assert PollAt(v, polls, i, a, k - |start|);
        } else {
          assert Observed(i, b, s, x) in start;
        }
      }
    }
  }

  lemma ReadingMayFollow(c: Config, r: Request, start: seq<Event>, polls: seq<Event>, i: nat, a: nat, e: Event)
    requires Polling(c, r, start, start, i, a) && Polls(c.steps[i].verification.value, polls, i, a)
    requires e.Observed? && e.step == i && e.attempt == a && c.steps[i].verification.value.source == Some(e.source)
    ensures MayFollow(c, r, start + polls, e)
  {
    PollsAreQuiet(c.steps[i].verification.value, polls, i, a);
    QuietSends(start, polls, i, a);
    PollsFinishNothing(c, start, polls, i, a);
    assert Taken(i, a) in start + polls;
  }

  /** Each poll may follow those before it. */
  lemma PollMayFollow(c: Config, r: Request, start: seq<Event>, polls: seq<Event>, i: nat, a: nat, n: nat)
    requires Polling(c, r, start, start, i, a) && n < |polls|
    requires Polls(c.steps[i].verification.value, polls, i, a)
    ensures MayFollow(c, r, start + polls[..n], polls[n])
  {
    var v := c.steps[i].verification.value;
    var before := start + polls[..n];
    assert PollAt(v, polls, i, a, n);
    PollsPrefix(v, polls, i, a, n);
    if polls[n].Observed? {
      ReadingMayFollow(c, r, start, polls[..n], i, a, polls[n]);
    } else {
      assert PollAt(v, polls, i, a, n - 1);
      assert before[|before| - 1] == polls[n - 1];
    }
  }

  lemma PollsProper(c: Config, r: Request, start: seq<Event>, polls: seq<Event>, i: nat, a: nat)
    requires Polling(c, r, start, start, i, a) && Polls(c.steps[i].verification.value, polls, i, a)
    ensures Proper(c, r, start + polls)
  {
    var log := start + polls;
    forall k | 0 <= k < |log| ensures MayFollow(c, r, log[..k], log[k]) {
      if k < |start| {
        assert log[..k] == start[..k];
      } else {
        PollMayFollow(c, r, start, polls, i, a, k - |start|);
        assert log[..k] == start + polls[..k - |start|];
      }
    }
  }

  /** Polling without success leaves the step as it was. */
  lemma PollsKeep(c: Config, r: Request, start: seq<Event>, polls: seq<Event>, i: nat, a: nat)
    requires Polling(c, r, start, start, i, a) && Polls(c.steps[i].verification.value, polls, i, a)
    ensures Polling(c, r, start, start + polls, i, a)
  {
    PollsProper(c, r, start, polls, i, a);
    PollsAreQuiet(c.steps[i].verification.value, polls, i, a);
    QuietSends(start, polls, i, a);
    PollsFinishNothing(c, start, polls, i, a);
    CompletedStays(c, start, polls, i);
    assert Taken(i, a) in start + polls;
  }

  lemma MetIsProper(c: Config, r: Request, start: seq<Event>, polls: seq<Event>, i: nat, a: nat)
    requires Polling(c, r, start, start, i, a) && PollsUntilMet(c.steps[i].verification.value, polls, i, a)
    ensures Proper(c, r, start + polls)
  {
    var before, e := polls[..|polls| - 1], polls[|polls| - 1];
    PollsProper(c, r, start, before, i, a);
    ReadingMayFollow(c, r, start, before, i, a, e);
    ProperMore(c, r, start + before, e);
    assert start + polls == (start + before) + [e];
  }

  lemma PolledUntilMet(c: Config, r: Request, start: seq<Event>, polls: seq<Event>, i: nat, a: nat)
    requires Polling(c, r, start, start, i, a) && PollsUntilMet(c.steps[i].verification.value, polls, i, a)
    ensures Trying(c, r, start + polls, i, a) && OnlyPolled(start, start + polls, i, a)
    ensures Confirmed(c, start + polls, i, a)
  {
    MetIsProper(c, r, start, polls, i, a);
    PollsAreQuiet(c.steps[i].verification.value, polls, i, a);
    QuietSends(start, polls, i, a);
    CompletedStays(c, start, polls, i);
    var e := polls[|polls| - 1];
    assert e == Observed(i, a, e.source, e.value) && e in start + polls;
  }

  /** Polls the status point until it has the expected value, time is up, or the context stops:
      `verified` exactly when a reading after this attempt had the expected value, and otherwise not before
      the time for it is over. */
  method Verify(env: Environment, c: Config, r: Request, i: nat, a: nat, deadline: Option<nat>)
    returns (verified: bool, stopped: bool)
    requires ValidConfig(c) && i < |c.steps| && c.steps[i].verification.Some?
    requires Trying(c, r, env.log, i, a) && Taken(i, a) in env.log && Unfinished(c, env.log, i)
    modifies env
    ensures Trying(c, r, env.log, i, a)
    ensures OnlyPolled(old(env.log), env.log, i, a)
    ensures verified <==> Confirmed(c, env.log, i, a)
    ensures !verified ==> Unfinished(c, env.log, i)
    ensures verified ==> !stopped
    ensures stopped ==> env.gone
    ensures !verified && !stopped ==>
              TimeUp(deadline, env.now) || env.now >= old(env.now) + c.steps[i].verification.value.waitTimeout
  {
    assert c.steps[i] in c.steps && ValidStep(c, c.steps[i]);
    ghost var start := env.log;
    var turn, polls := Poll(env, c.steps[i].verification.value, i, a, deadline);
    if turn == Met {
      PolledUntilMet(c, r, start, polls, i, a);
    } else {
      PollsKeep(c, r, start, polls, i, a);
    }
    verified, stopped := turn == Met, turn == Stopped;
  }

  /** How polling stands: the status point had the expected value, it is time for the next reading, time is
      up, or the context stopped. */
  datatype Turn = Met | Again | Over | Stopped

  /** The polling loop: what it adds to the log, and that it does not give up early. */
  method Poll(env: Environment, v: Verification, ghost i: nat, ghost a: nat, deadline: Option<nat>)
    returns (turn: Turn, ghost polls: seq<Event>)
    requires ValidVerification(v)
    modifies env
    ensures env.log == old(env.log) + polls && turn != Again
    ensures if turn == Met then PollsUntilMet(v, polls, i, a) else Polls(v, polls, i, a)
    ensures turn == Over ==> TimeUp(deadline, env.now) || env.now >= old(env.now) + v.waitTimeout
    ensures turn == Stopped ==> env.gone
  {
    polls := [];
    var t := env.Now();
    var until := t + v.waitTimeout;
    if deadline.Some? && deadline.value < until {
      until := deadline.value;
    }
    t := env.Now();
    while t <= until
      invariant t == env.now >= old(env.now)
      invariant env.log == old(env.log) + polls && Polls(v, polls, i, a)
      decreases until - t
    {
      polls, turn := PollOnce(env, v, i, a, until, polls);
      if turn != Again {
        return;
      }
      t := env.Now();
    }
    turn := Over;
  }

  /** One turn of the polling: a reading and the wait after it. */
  method PollOnce(env: Environment, v: Verification, ghost i: nat, ghost a: nat, until: nat, ghost before: seq<Event>)
    returns (ghost polls: seq<Event>, turn: Turn)
    requires ValidVerification(v) && Polls(v, before, i, a)
    modifies env
    ensures before <= polls && env.log == old(env.log) + polls[|before|..]
    ensures if turn == Met then PollsUntilMet(v, polls, i, a) else Polls(v, polls, i, a)
    ensures turn == Again ==> env.now > old(env.now)
    ensures turn == Over ==> env.now >= until
    ensures turn == Stopped ==> env.gone
  {
    polls := before;
    var stopped := env.ContextStopped();
    if stopped {
      return polls, Stopped;
    }
    var t := env.Now();
    if t >= until {
      return polls, Over;
    }
    var failed, value := env.ReadStatus(i, a, v.source.value);
    polls := polls + [Observed(i, a, v.source.value, value)];
    if !failed && value == Some(v.expected.value.b) {
      assert polls[..|before|] == before;
      return polls, Met;
    }
    PollsMore(v, before, i, a, Observed(i, a, v.source.value, value));
    if failed {
      stopped := env.ContextStopped();
      if stopped {
        return polls, Stopped;
      }
    }
    PollsMore(v, polls, i, a, Waited(i, a, BetweenReadings, v.pollInterval));
    polls := polls + [Waited(i, a, BetweenReadings, v.pollInterval)];
    var rested := env.InterruptibleSleep(i, a, BetweenReadings, v.pollInterval, Some(until));
    if !rested {
      stopped := env.ContextStopped();
      return polls, if stopped then Stopped else Over;
    }
    return polls, Again;
  }

  // ---------- why a step fails ----------

  /** The status that a refusal is reported with. */
  predicate ReportedAs(reply: Reply, status: FailureStatus) {
    match reply
    case CallFailed(failure) => status == failure
    case Answered(Undefined) => status == InternalError
    case Answered(answer) => status == answer
  }

  /** The last attempt the configuration allows was accepted, and the verification was not met. */
  ghost predicate Exhausted(c: Config, log: seq<Event>, i: nat)
    requires i < |c.steps|
  {
    && c.steps[i].verification.Some? && Unfinished(c, log, i)
    && var v := c.steps[i].verification.value;
    Taken(i, if v.action == RetryCommand then v.maxRetries else 0) in log
  }

  /** What a step may fail for: the deadline, no value from the trigger, a command that was not accepted, or
      no attempt left. */
  ghost predicate Excused(c: Config, r: Request, log: seq<Event>, i: nat, status: FailureStatus, late: bool)
    requires i < |c.steps|
  {
    || (late && status == Timeout)
    || (c.steps[i].useTrigger && r.triggerValue.None? && !Executed(log, i) && status == Rejected)
    || (exists a, reply :: Refused(i, a, reply) in log && ReportedAs(reply, status))
    || (Exhausted(c, log, i) && status == Timeout)
  }

  /** Without a deadline, a step of which every command sent was accepted, and one was, fails only after its
      last attempt: with all retries made if it retries, and otherwise after the first. */
  lemma RetriesAreMade(c: Config, r: Request, log: seq<Event>, i: nat, status: FailureStatus)
    requires Proper(c, r, log) && i < |c.steps| && Excused(c, r, log, i, status, false)
    requires forall a, d :: Issued(i, a, d) in log ==> Taken(i, a) in log
    requires exists a, d :: Issued(i, a, d) in log
    ensures status == Timeout && c.steps[i].verification.Some?
    ensures var v := c.steps[i].verification.value;
            Taken(i, if v.action == RetryCommand then v.maxRetries else 0) in log
  {
    var a, d :| Issued(i, a, d) in log;
    assert Executed(log, i);
    forall k: nat | k < |log| && log[k].Refused? ensures log[k].step != i {
      AnswerWasIssued(c, r, log, k);
      if log[k].step == i {
        RefusedIsFinal(c, r, log, k);
        assert false;
      }
    }
  }

  /** A command that was refused was not accepted. */
  lemma RefusedIsFinal(c: Config, r: Request, log: seq<Event>, k: nat)
    requires Proper(c, r, log) && k < |log| && log[k].Refused?
    ensures Taken(log[k].step, log[k].attempt) !in log
  {
    var e := Taken(log[k].step, log[k].attempt);
    forall l: nat | l < |log| ensures log[l] != e {
      if log[l].Taken? {
        TakenOrRefused(c, r, log, k, l);
      }
    }
  }

  lemma TakenOrRefused(c: Config, r: Request, log: seq<Event>, k: nat, l: nat)
    requires Proper(c, r, log) && k < |log| && l < |log| && log[k].Refused? && log[l].Taken?
    ensures log[l] != Taken(log[k].step, log[k].attempt)
  {
    if l < k {
      NotTakenBefore(c, r, log, k);
      assert log[..k][l] == log[l];
    } else {
      NotRefusedBefore(c, r, log, l, log[k].reply);
      assert log[..l][k] == log[k];
    }
  }

  lemma NotTakenBefore(c: Config, r: Request, log: seq<Event>, k: nat)
    requires Proper(c, r, log) && k < |log| && log[k].Refused?
    ensures Taken(log[k].step, log[k].attempt) !in log[..k]
  {
    assert MayFollow(c, r, log[..k], log[k]);
  }

  lemma NotRefusedBefore(c: Config, r: Request, log: seq<Event>, l: nat, reply: Reply)
    requires Proper(c, r, log) && l < |log| && log[l].Taken?
    ensures Refused(log[l].step, log[l].attempt, reply) !in log[..l]
  {
    assert MayFollow(c, r, log[..l], log[l]);
  }

  // ---------- one attempt ----------

  /** The base of the request ids of a step's commands. */
  function StepBase(base: string, name: string, i: nat, a: nat): string {
    (if base == "" then name else base) + "-" + ToText(Digits(i + 1)) + "-" + ToText(Digits(a + 1))
  }

  lemma {:induction false} NoLeadingZero(n: nat)
    requires n > 0
    ensures Digits(n)[0] != 0
  {
    if n >= 10 {
      NoLeadingZero(n / 10);
    }
  }

  lemma TextWrites(n: nat)
    requires n > 0
    ensures Writes(ToText(Digits(n)), n)
  {
    NoLeadingZero(n);
    assert FromText(ToText(Digits(n))) == Digits(n);
  }

  lemma IdIsNumbered(r: Request, i: nat, a: nat)
    ensures IdFor(r, i, a, Made(StepBase(Split(r.id).base, r.name, i, a), Split(r.id).path + [r.name]))
  {
    TextWrites(i + 1);
    TextWrites(a + 1);
    var x, y := ToText(Digits(i + 1)), ToText(Digits(a + 1));
    assert Made(StepBase(Split(r.id).base, r.name, i, a), Split(r.id).path + [r.name]) == NumberedId(r, x, y);
  }

  method BuildCommand(c: Config, r: Request, i: nat, a: nat, timeout: nat) returns (d: Command)
    requires ValidConfig(c) && i < |c.steps| && timeout <= c.steps[i].timeout
    requires c.steps[i].useTrigger ==> r.triggerValue.Some?
    ensures CommandOf(c, r, i, a, d) && d.timeout == timeout
  {
    var s := c.steps[i];
    assert s in c.steps && ValidStep(c, s);
    var parts := SplitRequestId(r.id);
    var source := if c.trigger.Some? then InternalSource(r.name, s.name) else s.source.value;
    var value := if s.useTrigger then r.triggerValue.value else s.value.value;
    var id := MakeRequestId(StepBase(parts.base, r.name, i, a), parts.path + [r.name]);
    IdIsNumbered(r, i, a);
    d := Command(source, value, timeout, id);
  }

  /** The time a command may take: the step's timeout, or what is left of the sequence's. */
  method CommandTimeout(env: Environment, s: Step, deadline: Option<nat>) returns (timeout: Option<nat>)
    modifies env`now
    ensures timeout.None? <==> TimeUp(deadline, env.now)
    ensures timeout.Some? ==>
              timeout.value == if deadline.Some? && deadline.value - env.now < s.timeout then deadline.value - env.now
                  else s.timeout
  {
    if deadline.None? {
      return Some(s.timeout);
    }
    var t := env.Now();
    if t >= deadline.value {
      return None;
    }
    var remaining := deadline.value - t;
    return Some(if remaining < s.timeout then remaining else s.timeout);
  }

  /** What follows the answer to a command: its verification, if it was accepted. */
  method TakeAnswer(env: Environment, c: Config, r: Request, i: nat, a: nat, reply: Reply, deadline: Option<nat>)
    returns (outcome: Progress, done: bool)
    requires ValidConfig(c) && Trying(c, r, env.log, i, a)
    requires reply == Answered(Accepted) <==> Taken(i, a) in env.log
    requires c.steps[i].verification.Some? || reply != Answered(Accepted) ==> Unfinished(c, env.log, i)
    modifies env
    ensures Trying(c, r, env.log, i, a)
    ensures old(env.log) <= env.log
    ensures forall j: nat, b: nat :: Taken(j, b) in env.log <==> Taken(j, b) in old(env.log)
    ensures done ==> outcome == Passed && reply == Answered(Accepted) && Completed(c, env.log, i)
    ensures !done ==> Unfinished(c, env.log, i)
    ensures outcome == Passed && !done ==> reply == Answered(Accepted) && c.steps[i].verification.Some?
    ensures outcome.Failed? ==> reply != Answered(Accepted) && ReportedAs(reply, outcome.status)
    ensures outcome == Interrupted ==> env.gone
  {
    done := false;
    if reply.CallFailed? {
      var stopped := env.ContextStopped();
      return if stopped then Interrupted else Failed(reply.failure), false;
    }
    if reply.status == Undefined {
      return Failed(InternalError), false;
    }
    if reply.status != Accepted {
      return Failed(reply.status), false;
    }
    if c.steps[i].verification.None? {
      return Passed, true;
    }
    var verified, stopped := Verify(env, c, r, i, a, deadline);
    PollingKeepsTaken(old(env.log), env.log, i, a);
    return if stopped then Interrupted else Passed, verified;
  }

  /** What is checked before every step and every attempt. */
  method StillInTime(env: Environment, deadline: Option<nat>) returns (outcome: Progress)
    modifies env`now, env`gone
    ensures outcome == Passed || (outcome == Interrupted && env.gone) ||
              (TimeUp(deadline, env.now) && outcome == Failed(Timeout))
  {
    var stopped := env.ContextStopped();
    if stopped {
      return Interrupted;
    }
    var late := env.DeadlineReached(deadline);
    return if late then Failed(Timeout) else Passed;
  }

  /** A step that was accepted before was given its value. */
  lemma TriggerWasThere(c: Config, r: Request, log: seq<Event>, i: nat)
    requires Proper(c, r, log) && i < |c.steps| && c.steps[i].useTrigger && r.triggerValue.None?
    ensures !Executed(log, i)
  {
    forall k: nat | k < |log| && log[k].Taken? ensures log[k].step != i {
      AnswerWasIssued(c, r, log, k);
      var d :| Issued(log[k].step, log[k].attempt, d) in log;
      var l :| 0 <= l < |log| && log[l] == Issued(log[k].step, log[k].attempt, d);
      assert MayFollow(c, r, log[..l], log[l]);
    }
  }

  /** One attempt: the command and, if it is accepted, its verification. `done` says that the step is
      completed, `taken` that the command was accepted. */
  method Attempt(env: Environment, c: Config, r: Request, i: nat, a: nat, deadline: Option<nat>)
    returns (outcome: Progress, done: bool, taken: bool)
    requires ValidConfig(c) && Ready(c, r, env.log, i, a)
    modifies env
    ensures Trying(c, r, env.log, i, a)
    ensures taken ==> Taken(i, a) in env.log
    ensures Executed(env.log, i) <==> Executed(old(env.log), i) || taken
    ensures !done ==> Unfinished(c, env.log, i)
    ensures done ==> outcome == Passed && taken && Completed(c, env.log, i)
    ensures outcome == Passed && !done ==> taken && c.steps[i].verification.Some?
    ensures outcome.Failed? ==> Excused(c, r, env.log, i, outcome.status, TimeUp(deadline, env.now))
    ensures outcome == Interrupted ==> env.gone
  {
    var s := c.steps[i];
    done, taken := false, false;
    outcome := StillInTime(env, deadline);
    if outcome != Passed {
      return;
    }
    if s.useTrigger && r.triggerValue.None? {
      outcome := Failed(Rejected);
      TriggerWasThere(c, r, env.log, i);
      return;
    }
    var timeout := CommandTimeout(env, s, deadline);
    if timeout.None? {
      outcome := Failed(Timeout);
      return;
    }
    var command := BuildCommand(c, r, i, a, timeout.value);
    ghost var before := env.log;
    var reply := env.Execute(i, a, command);
    taken := reply == Answered(Accepted);
    AnsweredNext(c, r, before, i, a, command, reply);
    ghost var sent := env.log;
    outcome, done := TakeAnswer(env, c, r, i, a, reply, deadline);
    if outcome.Failed? {
      assert sent[|sent| - 1] == Refused(i, a, reply) && env.log[|sent| - 1] == sent[|sent| - 1];
    }
  }

  /** After the wait before a retry, or without one if none is asked for, the next attempt is due. */
  lemma RetryNext(c: Config, r: Request, log: seq<Event>, i: nat, a: nat)
    requires Trying(c, r, log, i, a) && Taken(i, a) in log && Unfinished(c, log, i) && a < Retries(c.steps[i])
    requires c.steps[i].verification.value.retryInterval > 0
    ensures var after := log + [Waited(i, a, BeforeRetry, c.steps[i].verification.value.retryInterval)];
            Ready(c, r, after, i, a + 1) && Trying(c, r, after, i, a) && Taken(i, a) in after
  {
    var e := Waited(i, a, BeforeRetry, c.steps[i].verification.value.retryInterval);
    assert MayFollow(c, r, log, e);
    ProperMore(c, r, log, e);
    CompletedStays(c, log, [e], i);
    IdleKeeps(c, log, e, i);
    assert e in log + [e];
  }

  /** The wait before a retry. */
  method WaitToRetry(env: Environment, c: Config, r: Request, i: nat, a: nat, deadline: Option<nat>)
    returns (outcome: Progress)
    requires Trying(c, r, env.log, i, a) && Taken(i, a) in env.log && Unfinished(c, env.log, i)
    requires a < Retries(c.steps[i])
    modifies env
    ensures Ready(c, r, env.log, i, a + 1)
    ensures Trying(c, r, env.log, i, a) && Unfinished(c, env.log, i) && Taken(i, a) in env.log
    ensures outcome == Passed || (outcome == Interrupted && env.gone) ||
              (TimeUp(deadline, env.now) && outcome == Failed(Timeout))
  {
    outcome := Passed;
    var interval := c.steps[i].verification.value.retryInterval;
    if interval > 0 {
      RetryNext(c, r, env.log, i, a);
      var rested := env.InterruptibleSleep(i, a, BeforeRetry, interval, deadline);
      if !rested {
        var stopped := env.ContextStopped();
        outcome := if stopped then Interrupted else Failed(Timeout);
      }
    }
  }

  /** An untried step has no accepted commands and no readings. */
  lemma NothingTaken(c: Config, r: Request, log: seq<Event>, i: nat)
    requires Proper(c, r, log) && i < |c.steps| && Untried(log, i, 0)
    ensures (forall b: nat :: Taken(i, b) !in log) && Unfinished(c, log, i)
  {
    forall k: nat | k < |log| && log[k].Taken? ensures log[k].step != i {
      AnswerWasIssued(c, r, log, k);
    }
    forall k: nat | k < |log| && log[k].Observed? ensures log[k].step != i {
      assert MayFollow(c, r, log[..k], log[k]);
      assert Taken(log[k].step, log[k].attempt) in log;
    }
  }

  /** Steps before `i` are completed and no later one was tried. */
  ghost predicate Between(c: Config, r: Request, log: seq<Event>, i: nat) {
    i <= |c.steps| && Proper(c, r, log) && CompletedBefore(c, log, i) && Untried(log, i, 0)
  }

  /** All attempts of one step. `executed` says whether its first command was accepted. */
  method RunStep(env: Environment, c: Config, r: Request, i: nat, deadline: Option<nat>)
    returns (outcome: Progress, executed: bool)
    requires ValidConfig(c) && Between(c, r, env.log, i) && i < |c.steps| && Paused(c, env.log, i)
    modifies env
    ensures i < |c.steps| && Proper(c, r, env.log) && CompletedBefore(c, env.log, i) && Untried(env.log, i + 1, 0)
    ensures executed <==> Executed(env.log, i)
    ensures outcome == Passed ==> executed && Completed(c, env.log, i)
    ensures outcome != Passed ==> Unfinished(c, env.log, i)
    ensures outcome.Failed? ==> Excused(c, r, env.log, i, outcome.status, TimeUp(deadline, env.now))
    ensures outcome == Interrupted ==> env.gone
  {
    var retryCount := Retries(c.steps[i]);
    executed := false;
    NothingTaken(c, r, env.log, i);
    var a := 0;
    while a <= retryCount
      invariant a <= retryCount && Ready(c, r, env.log, i, a)
      invariant executed <==> Executed(env.log, i)
      decreases retryCount - a
    {
      var done, taken;
      outcome, done, taken := Attempt(env, c, r, i, a, deadline);
      executed := executed || taken;
      if outcome != Passed || done {
        return;
      }
      if a == retryCount {
        outcome := Failed(Timeout);
        return;
      }
      outcome := WaitToRetry(env, c, r, i, a, deadline);
      if outcome != Passed {
        return;
      }
      a := a + 1;
    }
  }

  // ---------- the steps in order ----------

  /** The pause after a step that is not the last. */
  method Pause(env: Environment, c: Config, r: Request, i: nat, deadline: Option<nat>) returns (outcome: Progress)
    requires Between(c, r, env.log, i + 1) && i + 1 < |c.steps|
    modifies env
    ensures Between(c, r, env.log, i + 1)
    ensures outcome == Passed ==> Paused(c, env.log, i + 1)
    ensures outcome == Passed || (outcome == Interrupted && env.gone) ||
              (TimeUp(deadline, env.now) && outcome == Failed(Timeout))
  {
    var delay := c.steps[i].delayAfter;
    if delay == 0 {
      return Passed;
    }
    if deadline.Some? {
      var t := env.Now();
      if t >= deadline.value {
        return Failed(Timeout);
      }
      if deadline.value - t < delay {
        delay := deadline.value - t;
      }
    }
    var e := Waited(i, 0, AfterStep, delay);
    ProperMore(c, r, env.log, e);
    CompletedStays(c, env.log, [e], i + 1);
    var rested := env.InterruptibleSleep(i, 0, AfterStep, delay, deadline);
    if !rested {
      var stopped := env.ContextStopped();
      return if stopped then Interrupted else Failed(Timeout);
    }
    return Passed;
  }

  /** The sequence stopped at step `i`: all steps before it are completed, none after it was tried, and it
      counts as executed if its command was accepted. */
  ghost predicate StoppedAt(c: Config, log: seq<Event>, i: nat, executedSteps: nat) {
    && i < |c.steps| && CompletedBefore(c, log, i) && !Completed(c, log, i) && Untried(log, i + 1, 0)
    && executedSteps == (if Executed(log, i) then i + 1 else i)
  }

  lemma NotStarted(c: Config, r: Request, log: seq<Event>, i: nat)
    requires Between(c, r, log, i) && i < |c.steps|
    ensures StoppedAt(c, log, i, i)
  {
    NothingTaken(c, r, log, i);
  }

  lemma NotFinished(c: Config, log: seq<Event>, i: nat)
    requires i < |c.steps| && CompletedBefore(c, log, i) && Untried(log, i + 1, 0) && Unfinished(c, log, i)
    ensures StoppedAt(c, log, i, if Executed(log, i) then i + 1 else i)
  {
  }

  lemma OneMoreCompleted(c: Config, r: Request, log: seq<Event>, i: nat)
    requires i < |c.steps| && Proper(c, r, log) && CompletedBefore(c, log, i) && Completed(c, log, i) &&
              Untried(log, i + 1, 0)
    ensures Between(c, r, log, i + 1)
  {
  }

  /** One step, if there is still time. */
  method TryStep(env: Environment, c: Config, r: Request, i: nat, deadline: Option<nat>)
    returns (outcome: Progress, executedSteps: nat)
    requires ValidConfig(c) && Between(c, r, env.log, i) && i < |c.steps| && Paused(c, env.log, i)
    modifies env
    ensures Proper(c, r, env.log)
    ensures outcome == Passed ==> Between(c, r, env.log, i + 1) && executedSteps == i + 1
    ensures outcome != Passed ==> StoppedAt(c, env.log, i, executedSteps)
    ensures outcome.Failed? ==> Excused(c, r, env.log, i, outcome.status, TimeUp(deadline, env.now))
    ensures outcome == Interrupted ==> env.gone
  {
    outcome := StillInTime(env, deadline);
    if outcome != Passed {
      executedSteps := i;
      NotStarted(c, r, env.log, i);
      return;
    }
    var executed;
    outcome, executed := RunStep(env, c, r, i, deadline);
    executedSteps := if executed then i + 1 else i;
    if outcome != Passed {
      NotFinished(c, env.log, i);
      return;
    }
    OneMoreCompleted(c, r, env.log, i);
  }

  /** One step and, unless it is the last, the pause after it. `at` is the step that a failure is reported
      for. */
  method StepAndPause(env: Environment, c: Config, r: Request, i: nat, deadline: Option<nat>)
    returns (outcome: Progress, executedSteps: nat, at: nat)
    requires ValidConfig(c) && Between(c, r, env.log, i) && i < |c.steps| && Paused(c, env.log, i)
    modifies env
    ensures Proper(c, r, env.log)
    ensures outcome == Passed ==> Between(c, r, env.log, i + 1) && executedSteps == i + 1
    ensures outcome == Passed && i + 1 < |c.steps| ==> Paused(c, env.log, i + 1)
    ensures outcome != Passed ==> StoppedAt(c, env.log, at, executedSteps)
    ensures outcome.Failed? ==> Excused(c, r, env.log, at, outcome.status, TimeUp(deadline, env.now))
    ensures outcome == Interrupted ==> env.gone
  {
    at := i;
    outcome, executedSteps := TryStep(env, c, r, i, deadline);
    if outcome == Passed && i + 1 < |c.steps| {
      at := i + 1;
      outcome := Pause(env, c, r, i, deadline);
      NotStarted(c, r, env.log, i + 1);
    }
  }

  /** The steps of a sequence. The result is `None` when the caller has gone away. */
  method RunSteps(env: Environment, c: Config, r: Request, deadline: Option<nat>) returns (response: Option<Response>)
    requires ValidConfig(c) && env.log == []
    modifies env
    ensures Proper(c, r, env.log)
    ensures response.Some? ==> Reports(c, r, env.log, response.value, TimeUp(deadline, env.now))
    ensures response.None? ==> env.gone && !CompletedBefore(c, env.log, |c.steps|)
  {
    for i := 0 to |c.steps|
      invariant Between(c, r, env.log, i)
      invariant i < |c.steps| ==> Paused(c, env.log, i)
    {
      var outcome, executedSteps, at := StepAndPause(env, c, r, i, deadline);
      if outcome == Interrupted {
        return None;
      }
      if outcome != Passed {
        response := Some(Response(false, executedSteps, Some(at + 1), outcome.status));
        ReportsFailure(c, r, env.log, at, response.value, TimeUp(deadline, env.now));
        return;
      }
    }
    return Some(Response(true, |c.steps|, None, Undefined));
  }

  /** What a response says about what happened: `accepted` exactly when every step was completed, and
      otherwise where it stopped, counted from 1, and why. */
  ghost predicate Reports(c: Config, r: Request, log: seq<Event>, response: Response, late: bool) {
    && (response.accepted <==> CompletedBefore(c, log, |c.steps|))
    && (response.accepted ==> response.executedSteps == |c.steps| && response.failedStep == None)
    && (!response.accepted ==>
          response.status != Accepted && response.status != Undefined &&
          response.failedStep.Some? && response.failedStep.value >= 1 &&
          StoppedAt(c, log, response.failedStep.value - 1, response.executedSteps) &&
          Excused(c, r, log, response.failedStep.value - 1, response.status, late))
  }

  lemma ReportsFailure(c: Config, r: Request, log: seq<Event>, at: nat, response: Response, late: bool)
    requires StoppedAt(c, log, at, response.executedSteps) && !response.accepted && response.failedStep == Some(at + 1)
    requires response.status != Accepted && response.status != Undefined
    requires Excused(c, r, log, at, response.status, late)
    ensures Reports(c, r, log, response, late)
  {
  }

  // ---------- the whole call ----------

  datatype CallError = InvalidArgument | NotFound | CallerGone

  /** Waiting for the lock of the sequence ends with the lock, with the caller gone, or with a
      timeout, which needs a deadline. */
  method WaitForLock(env: Environment, deadline: Option<nat>) returns (outcome: Progress)
    modifies env`now, env`gone
    ensures outcome == Passed || (outcome == Interrupted && env.gone) ||
              (TimeUp(deadline, env.now) && outcome == Failed(Timeout))
  {
    outcome := StillInTime(env, deadline);
  }

  const NotRun := Response(false, 0, None, InternalError)

  type Sequences = map<string, Config>

  ghost predicate ValidSequences(sequences: Sequences) {
    forall name :: name in sequences ==> ValidConfig(sequences[name]) && sequences[name].name == name
  }

  /** The time the request allows, or the caller's deadline, is over. */
  predicate TimedOut(r: Request, contextDeadline: Option<nat>, start: nat, now: nat) {
    TimeUp(contextDeadline, now) || (r.timeout > 0 && now >= start + r.timeout)
  }

  /** What a finished call says and did: nothing at all if the recursion guard or the lock stopped it,
      and otherwise what its steps report. */
  ghost predicate Finished(sequences: Sequences, r: Request, log: seq<Event>, response: Response, late: bool) {
    if !Admitted(r.id, r.name) then log == [] && response == Response(false, 0, None, InternalError)
    else if response.failedStep == None && !response.accepted then
      log == [] && late && response == Response(false, 0, None, Timeout)
    else
      && r.name in sequences
      && Proper(sequences[r.name], r, log) && Reports(sequences[r.name], r, log, response, late)
  }

  method ExecuteSequence(env: Environment, sequences: Sequences, r: Request, contextDeadline: Option<nat>)
    returns (result: Result<Response, CallError>)
    requires ValidSequences(sequences) && env.log == []
    modifies env
    ensures result.Success? ==>
              Finished(sequences, r, env.log, result.value, TimedOut(r, contextDeadline, old(env.now), env.now))
    ensures result.Failure? && result.error != CallerGone ==> env.log == []
    ensures env.log != [] ==> Admitted(r.id, r.name) && r.name in sequences && Proper(sequences[r.name], r, env.log)
    ensures result == Failure(InvalidArgument) <==> r.name == ""
    ensures result == Failure(NotFound) ==> r.name !in sequences
    ensures result == Failure(CallerGone) ==> env.gone
    ensures result.Success? && result.value.accepted <==>
              r.name in sequences && CompletedBefore(sequences[r.name], env.log, |sequences[r.name].steps|)
  {
    NothingCompleted(sequences, r.name);
    if r.name == "" {
      return Failure(InvalidArgument);
    }
    var stopped := env.ContextStopped();
    if stopped {
      return Failure(CallerGone);
    }
    var parts := SplitRequestId(r.id);
    if |parts.path| >= MAX_PATH {
      return Success(NotRun);
    }
    if r.name in parts.path {
      return Success(NotRun);
    }
    if r.name !in sequences {
      return Failure(NotFound);
    }
    var deadline := contextDeadline;
    if r.timeout > 0 {
      var t := env.Now();
      if deadline.None? || t + r.timeout < deadline.value {
        deadline := Some(t + r.timeout);
      }
    }
    assert forall now :: now >= env.now && TimeUp(deadline, now) ==> TimedOut(r, contextDeadline, old(env.now), now);
    var lock := WaitForLock(env, deadline);
    if lock == Interrupted {
      return Failure(CallerGone);
    }
    if lock != Passed {
      return Success(NotRun.(status := lock.status));
    }
    var response := RunSteps(env, sequences[r.name], r, deadline);
    if response.None? {
      return Failure(CallerGone);
    }
    return Success(response.value);
  }

  /** Before anything happens no sequence is completed. */
  lemma NothingCompleted(sequences: Sequences, name: string)
    requires ValidSequences(sequences)
    ensures name in sequences ==> !CompletedBefore(sequences[name], [], |sequences[name].steps|)
  {
    if name in sequences {
      assert !Completed(sequences[name], [], 0);
    }
  }

  // ---------- sequences started by a command ----------

  predicate Matches(c: Config, s: Source) {
    c.trigger.Some? &&
    ((NamedKey(s) && SameName(c.trigger.value, s)) ||
        (c.trigger.value.connId != 0 && s.connId == c.trigger.value.connId && c.trigger.value.tag == s.tag))
  }

  predicate NamedKey(s: Source) {
    s.moduleName != "" && s.connName != ""
  }

  predicate SameName(a: Source, b: Source) {
    a.moduleName == b.moduleName && a.connName == b.connName && a.tag == b.tag
  }

  /** The sequences that a source triggers. */
  function Triggered(sequences: Sequences, s: Source): set<string> {
    set name | name in sequences && Matches(sequences[name], s)
  }

  /** The trigger and the source have one name, or one connection id that is set, and one tag. */
  predicate StartedBy(trigger: Source, s: Source) {
    && trigger.tag == s.tag
    && (|| (s.moduleName != "" && s.connName != "" &&
              trigger.moduleName == s.moduleName && trigger.connName == s.connName)
        || (s.connId != 0 && trigger.connId == s.connId))
  }

  method FindTriggered(sequences: Sequences, s: Source) returns (count: nat, name: string)
    ensures count == |Triggered(sequences, s)|
    ensures count > 0 ==> name in Triggered(sequences, s)
    ensures forall n :: n in Triggered(sequences, s) <==>
              n in sequences && sequences[n].trigger.Some? && StartedBy(sequences[n].trigger.value, s)
  {
    count, name := 0, "";
    ghost var found: set<string> := {};
    var todo := sequences.Keys;
    while todo != {}
      invariant todo <= sequences.Keys
      invariant found == set n | n in sequences && n !in todo && Matches(sequences[n], s)
      invariant count == |found| && (count > 0 ==> name in found)
    {
      var n :| n in todo;
      todo := todo - {n};
      if Matches(sequences[n], s) {
        count, name := count + 1, n;
        found := found + {n};
      }
    }
    assert found == Triggered(sequences, s);
  }

  /** Runs the one sequence a command's source triggers and answers for it: accepted only if that
      sequence completed all of its steps. */
  method ExecuteTriggeredCommand(env: Environment, sequences: Sequences, source: Option<Source>,
                                 value: Option<Value>, id: string, timeout: nat, contextDeadline: Option<nat>)
    returns (result: Result<CommandStatus, CallError>)
    requires ValidSequences(sequences) && env.log == []
    modifies env
    ensures result.Success? ==> source.Some? && source.value.tag != "" && value.Some?
    ensures result == Success(Accepted) <==>
              source.Some? && source.value.tag != "" && value.Some? &&
              exists name :: Triggered(sequences, source.value) == {name} &&
                  CompletedBefore(sequences[name], env.log, |sequences[name].steps|)
    ensures source.Some? && source.value.tag != "" && value.Some? ==>
              && (|Triggered(sequences, source.value)| == 0 ==> result == Success(NoRoute))
              && (|Triggered(sequences, source.value)| > 1 ==> result == Success(AmbiguousRoute))
    ensures env.log != [] ==>
              source.Some? && exists name ::
                  Triggered(sequences, source.value) == {name} &&
                  Proper(sequences[name], Request(name, value, id, timeout), env.log)
  {
    if source.None? || source.value.tag == "" || value.None? {
      return Failure(InvalidArgument);
    }
    var count, name := FindTriggered(sequences, source.value);
    if count > 1 {
      return Success(AmbiguousRoute);
    }
    if count == 0 {
      return Success(NoRoute);
    }
    OnlyOne(Triggered(sequences, source.value), name);
    var called := ExecuteSequence(env, sequences, Request(name, value, id, timeout), contextDeadline);
    match called
    case Failure(e) => return Failure(e);
    case Success(response) =>
      if response.accepted {
        return Success(Accepted);
      }
      return Success(if response.status == Undefined then Rejected else response.status);
  }

  lemma OnlyOne(s: set<string>, x: string)
    requires |s| == 1 && x in s
    ensures s == {x}
  {
    assert |s - {x}| == 0;
  }
}
