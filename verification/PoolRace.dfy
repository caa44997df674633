/** Submit against Close: the stopped check and the sends are separate actions, so the
    channel can be closed in between. */
module PoolRace {
  import opened PoolModel
  import opened PoolInvariant
  import opened PoolShutdown
  import opened PoolTheorems

  /** A call is past the stopped check when Close begins; Close drains the pool and
      returns nil while that call waits. */
  lemma CloseOvertakesSubmit() returns (steps: seq<Step>, s: Pool)
    ensures ReachedBy(Config(1, 1, 1), steps, s)
    ensures s.calls == [NewCall(CountSubmit, 0)] && s.closers == [Closed(CloseOk)] && s.queueClosed
    ensures s.totalSubmitted == 0 && s.totalCompleted == 0
  {
    var cfg := Config(1, 1, 1);
    steps, s := [], Init(cfg);
    steps, s := Extend(cfg, steps, s, BeginSubmit(false));
    steps, s := Extend(cfg, steps, s, StepCall(0));
    steps, s := Extend(cfg, steps, s, BeginClose);
    steps, s := Extend(cfg, steps, s, StepCloser(0, false));
    steps, s := Extend(cfg, steps, s, StepCloser(0, false));
    assert s.calls == [NewCall(CountSubmit, 0)] && s.closers == [Await] && s.queueClosed;
    assert s.workers == [Worker(false, Receive)] && s.queue == [];
    steps, s := Extend(cfg, steps, s, StepWorker(0, Proceed));
    steps, s := Extend(cfg, steps, s, StepWorker(0, Proceed));
    steps, s := Extend(cfg, steps, s, StepWorker(0, Proceed));
    assert s.wg == 0;
    steps, s := Extend(cfg, steps, s, WaitReturns);
    steps, s := Extend(cfg, steps, s, StepCloser(0, false));
  }

  /** A Submit that has passed the stopped check can meet a closed channel: the call panics
      and its task is lost, although Close returns nil. */
  lemma SubmitCanRaceClose()
    ensures exists steps: seq<Step>, s: Pool ::
              && ReachedBy(Config(1, 1, 1), steps, s)
              && s.calls == [NewCall(Returned(SendPanic), 0)] && s.closers == [Closed(CloseOk)]
              && s.totalSubmitted == 1 && s.totalCompleted == 0
  {
    var cfg := Config(1, 1, 1);
    var steps, s := CloseOvertakesSubmit();
    steps, s := Extend(cfg, steps, s, StepCall(0));
    steps, s := Extend(cfg, steps, s, StepCall(0));
  }

  /** The call has passed the stopped check, or will. */
  predicate AtRisk(s: Pool, c: nat)
    requires c < |s.calls|
  {
    !s.calls[c].pc.Returned? && (s.calls[c].pc == CheckStopped ==> !s.stopped)
  }

  ghost predicate CanPanic(s: Pool, c: nat)
    requires c < |s.calls|
  {
    exists steps ::
      CanRun(s, steps) && c < |RunAll(s, steps).calls| && RunAll(s, steps).calls[c].pc == Returned(SendPanic)
  }

  /** On a closed channel a call that is past the check returns, if it returns, with a
      panic, whatever it was about to do and however the steps are scheduled. */
  lemma {:induction false} PastCheckEndsInPanic(s: Pool, steps: seq<Step>, c: nat)
    requires s.queueClosed && CanRun(s, steps) && c < |s.calls|
    requires s.calls[c].pc != CheckStopped
    requires s.calls[c].pc.Returned? ==> s.calls[c].pc.outcome == SendPanic
    ensures c < |RunAll(s, steps).calls| && RunAll(s, steps).calls[c].pc != CheckStopped
    ensures var pc := RunAll(s, steps).calls[c].pc; pc.Returned? ==> pc.outcome == SendPanic
    decreases |steps|
  {
    if steps != [] {
      PastCheckEndsInPanic(Apply(s, steps[0]), steps[1..], c);
    }
  }

  /** And it can return so: stepping the call alone leads there. */
  lemma {:induction false} DriveToPanic(s: Pool, c: nat) returns (steps: seq<Step>)
    requires s.queueClosed && c < |s.calls| && !s.calls[c].pc.Returned? && s.calls[c].pc != CheckStopped
    ensures CanRun(s, steps) && c < |RunAll(s, steps).calls|
    ensures RunAll(s, steps).calls[c].pc == Returned(SendPanic)
    decreases CallRank(s.workerNum, s.calls[c])
  {
    var s' := Apply(s, StepCall(c));
    if s'.calls[c].pc.Returned? {
      steps := [StepCall(c)];
      RunOne(s, StepCall(c));
    } else {
      var rest := DriveToPanic(s', c);
      steps := [StepCall(c)] + rest;
    }
  }

  lemma RunOne(s: Pool, one: Step)
    requires Enabled(s, one)
    ensures CanRun(s, [one]) && RunAll(s, [one]) == Apply(s, one)
  {
    assert [one][1..] == [];
    assert RunAll(Apply(s, one), []) == Apply(s, one);
  }

  /** Some call to Close gets as far as closing the channel. */
  lemma DriveToClosed(s: Pool) returns (steps: seq<Step>)
    requires Inv(s)
    ensures CanRun(s, steps) && RunAll(s, steps).queueClosed && RunAll(s, steps).calls == s.calls
  {
    if s.queueClosed {
      steps := [];
    } else if s.stopped {
      var k :| 0 <= k < |s.closers| && Won(s.closers[k]);
      steps := [StepCloser(k, false)];
      RunOne(s, steps[0]);
    } else {
      steps := FreshClose(s);
    }
  }

  lemma FreshClose(s: Pool) returns (steps: seq<Step>)
    requires !s.stopped
    ensures CanRun(s, steps) && RunAll(s, steps).queueClosed && RunAll(s, steps).calls == s.calls
  {
    hide CanRun, RunAll;
    var go := StepCloser(|s.closers|, false);
    var s1 := Apply(s, BeginClose);
    var s2 := Apply(s1, go);
    RunOne(s2, go);
    RunOne(s1, go);
    RunOne(s, BeginClose);
    RunConcat(s1, [go], [go]);
    RunConcat(s, [BeginClose], [go] + [go]);
    steps := [BeginClose] + ([go] + [go]);
  }

  lemma PassCheck(s: Pool, c: nat)
    requires c < |s.calls| && s.calls[c].pc == CheckStopped && !s.stopped && Inv(s)
    ensures CanRun(s, [StepCall(c)]) && Inv(RunAll(s, [StepCall(c)]))
    ensures RunAll(s, [StepCall(c)]).calls == s.calls[c := s.calls[c].(pc := CountSubmit)]
  {
    hide Inv;
    InvStep(s, StepCall(c));
    RunOne(s, StepCall(c));
  }

  lemma RiskIsReal(s: Pool, c: nat)
    requires Inv(s) && c < |s.calls| && AtRisk(s, c)
    ensures CanPanic(s, c)
  {
    hide Inv;
    var first: seq<Step> := [];
    if s.calls[c].pc == CheckStopped {
      first := [StepCall(c)];
      PassCheck(s, c);
    }
    var s1 := RunAll(s, first);
    var second := DriveToClosed(s1);
    var third := DriveToPanic(RunAll(s1, second), c);
    RunConcat(s1, second, third);
    RunConcat(s, first, second + third);
  }

  /** Exactly which calls of a running pool a Close can make panic: those that have not
      returned and whose stopped check came, or can still come, before the flag. */
  lemma PanicExactly(cfg: Config, steps: seq<Step>, s: Pool, c: nat)
    requires ReachedBy(cfg, steps, s) && c < |s.calls| && s.calls[c].pc != Returned(SendPanic)
    ensures CanPanic(s, c) <==> AtRisk(s, c)
  {
    ReachedInv(cfg, steps, s);
    if AtRisk(s, c) {
      RiskIsReal(s, c);
    } else {
      forall more | CanRun(s, more)
        ensures !(c < |RunAll(s, more).calls| && RunAll(s, more).calls[c].pc == Returned(SendPanic))
      {
        if s.calls[c].pc.Returned? {
          ReturnedForGood(s, more, c);
        } else {
          LateCallsAreRefused(s, more, c);
        }
      }
    }
  }

  ghost predicate AnyPanic(s: Pool) {
    exists c :: 0 <= c < |s.calls| && s.calls[c].pc == Returned(SendPanic)
  }

  /** The call has passed the stopped check and not returned. */
  predicate PastCheck(call: Call) {
    !call.pc.Returned? && call.pc != CheckStopped
  }

  lemma LateCallsNeverPanic(s: Pool, steps: seq<Step>)
    requires s.stopped && CanRun(s, steps) && !AnyPanic(s)
    requires forall c :: 0 <= c < |s.calls| ==> !PastCheck(s.calls[c])
    ensures !AnyPanic(RunAll(s, steps))
  {
    forall c | 0 <= c < |RunAll(s, steps).calls| ensures RunAll(s, steps).calls[c].pc != Returned(SendPanic) {
      if c < |s.calls| && s.calls[c].pc.Returned? {
        ReturnedForGood(s, steps, c);
      } else {
        LateCallsAreRefused(s, steps, c);
      }
    }
  }

  ghost predicate PanicAhead(s: Pool) {
    exists more: seq<Step> :: CanRun(s, more) && AnyPanic(RunAll(s, more))
  }

  lemma PastCheckCanPanic(s: Pool, c: nat)
    requires Inv(s) && c < |s.calls| && PastCheck(s.calls[c])
    ensures PanicAhead(s)
  {
    hide Inv, CanRun, RunAll;
    RiskIsReal(s, c);
    var more :| CanRun(s, more) && c < |RunAll(s, more).calls|
                && RunAll(s, more).calls[c].pc == Returned(SendPanic);
    assert AnyPanic(RunAll(s, more));
  }

  /** What a caller of Close can rely on: from the moment the flag is set, some continuation
      contains a send panic exactly if some call is past the stopped check and unreturned. */
  lemma ShutdownPanicsExactly(cfg: Config, steps: seq<Step>, s: Pool)
    requires ReachedBy(cfg, steps, s) && s.stopped && !AnyPanic(s)
    ensures PanicAhead(s) <==> exists c :: 0 <= c < |s.calls| && PastCheck(s.calls[c])
  {
    hide Inv, CanRun, RunAll, ReachedBy, AnyPanic;
    if exists c :: 0 <= c < |s.calls| && PastCheck(s.calls[c]) {
      var c :| 0 <= c < |s.calls| && PastCheck(s.calls[c]);
      ReachedInv(cfg, steps, s);
      PastCheckCanPanic(s, c);
    } else {
      forall more: seq<Step> | CanRun(s, more) ensures !AnyPanic(RunAll(s, more)) {
        LateCallsNeverPanic(s, more);
      }
    }
  }
}
