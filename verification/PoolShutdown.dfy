/** After the channel is closed the pool comes to rest: every remaining step uses up part
    of a budget fixed by the state, and a pool with no step left has no worker. */
module PoolShutdown {
  import opened PoolModel
  import opened PoolInvariant
  import opened PoolTheorems
  import opened Sums

  predicate Internal(step: Step) {
    !step.BeginSubmit? && !step.BeginClose?
  }

  predicate InLoop(pc: CallPc) { pc.LoadWorkers? || pc.Cas? }

  function Looping(call: Call): nat { if InLoop(call.pc) then 1 else 0 }

  /** Writes to workerNum that a call can still cause: its own increment and the decrement
      of the worker it starts. */
  function WritesAhead(call: Call): nat {
    if InLoop(call.pc) then 2 else SpawnPending(call)
  }

  /** Steps a call has left if workerNum stays n and the channel is closed, the steps of a
      worker it may still start included. */
  function CallRank(n: int, call: Call): nat {
    match call.pc
    case CheckStopped => 1
    case CountSubmit => 2
    case FirstSend => 1
    case LoadWorkers => 8
    case Cas(seen, _) => if seen == n then 7 else 9
    case AddWg => 6
    case Spawn => 5
    case SecondSend => 1
    case LastSend => 1
    case Returned(_) => 0
  }

  function RankAt(n: int): Call -> nat { call => CallRank(n, call) }

  function WorkerRank(worker: Worker): nat {
    match worker.pc
    case Run(_) => 6
    case Count(_, _) => 5
    case CountPanic => 4
    case Receive => 3
    case Leave => 2
    case DoneWg => 1
    case Gone => 0
  }

  function CloserRank(pc: ClosePc): nat {
    match pc
    case SwapStopped => 3
    case CloseQueue => 2
    case Await => 1
    case Closed(_) => 0
  }

  /** Writes to workerNum still to come. */
  function Writes(s: Pool): nat {
    Sum(s.calls, WritesAhead) + Sum(s.workers, OnBoard)
  }

  /** One write makes at most every looping call stale, which costs each of them two steps
      more. This is writes * (2 * loops + 1). */
  function Allowance(writes: nat, loops: nat): nat {
    if writes == 0 then 0 else Allowance(writes - 1, loops) + 2 * loops + 1
  }

  /** `loops` bounds how many calls are in the compare-and-swap loop. */
  function Budget(s: Pool, loops: nat): nat {
    Allowance(Writes(s), loops) + Sum(s.calls, RankAt(s.workerNum)) + Sum(s.workers, WorkerRank)
    + 4 * |s.queue| + Sum(s.closers, CloserRank) + (if s.drained then 0 else 1)
  }

  lemma {:induction false} StaleCost(calls: seq<Call>, n: int, n': int)
    ensures Sum(calls, RankAt(n')) <= Sum(calls, RankAt(n)) + 2 * Sum(calls, Looping)
  {
    if calls != [] {
      StaleCost(calls[..|calls| - 1], n, n');
    }
  }

  lemma {:induction false} AllowanceGrows(m: nat, n: nat, loops: nat)
    requires m <= n
    ensures Allowance(m, loops) <= Allowance(n, loops)
  {
    if m < n {
      AllowanceGrows(m, n - 1, loops);
    }
  }

  lemma SwapSpends(s: Pool, c: nat, s': Pool, loops: nat)
    requires Enabled(s, StepCall(c)) && s' == CallNext(s, c)
    requires s.calls[c].pc.Cas? && s.calls[c].pc.seen == s.workerNum
    requires Sum(s.calls, Looping) <= loops
    ensures Budget(s', loops) < Budget(s, loops) && Sum(s'.calls, Looping) <= loops
  {
    var v := s'.calls[c];
    SumUpdate(s.calls, c, v, Looping);
    SumUpdate(s.calls, c, v, WritesAhead);
    SumUpdate(s.calls, c, v, RankAt(s.workerNum));
    StaleCost(s'.calls, s.workerNum, s'.workerNum);
    assert s'.workers == s.workers;
  }

  lemma CallSpends(s: Pool, c: nat, s': Pool, loops: nat)
    requires s.queueClosed && s.stopped
    requires Enabled(s, StepCall(c)) && s' == CallNext(s, c)
    requires Sum(s.calls, Looping) <= loops
    ensures Budget(s', loops) < Budget(s, loops) && Sum(s'.calls, Looping) <= loops
  {
    hide Sum, Allowance;
    var v := s'.calls[c];
    if s.calls[c].pc.Cas? && s.calls[c].pc.seen == s.workerNum {
      SwapSpends(s, c, s', loops);
    } else {
      SumUpdate(s.calls, c, v, Looping);
      SumUpdate(s.calls, c, v, WritesAhead);
      SumUpdate(s.calls, c, v, RankAt(s.workerNum));
      var hired := Worker(true, Receive);
      assert s'.workers == if s.calls[c].pc.Spawn? then s.workers + [hired] else s.workers;
      SumAppend(s.workers, hired, OnBoard);
      SumAppend(s.workers, hired, WorkerRank);
      AllowanceGrows(Writes(s'), Writes(s), loops);
    }
  }

  lemma WorkerSpends(s: Pool, w: nat, choice: Choice, s': Pool, loops: nat)
    requires s.queueClosed
    requires WorkerEnabled(s, w, choice) && s' == WorkerNext(s, w, choice)
    requires Sum(s.calls, Looping) <= loops
    ensures Budget(s', loops) < Budget(s, loops)
  {
    hide Sum;
    SumUpdate(s.workers, w, s'.workers[w], OnBoard);
    SumUpdate(s.workers, w, s'.workers[w], WorkerRank);
    StaleCost(s.calls, s.workerNum, s'.workerNum);
  }

  lemma CloserSpends(s: Pool, k: nat, timer: bool, s': Pool, loops: nat)
    requires CloserEnabled(s, k, timer) && s' == CloserNext(s, k, timer)
    ensures Budget(s', loops) < Budget(s, loops)
  {
    SumUpdate(s.closers, k, s'.closers[k], CloserRank);
    assert s'.closers == s.closers[k := s'.closers[k]];
    assert Writes(s') == Writes(s);
  }

  lemma BeginSpends(s: Pool, step: Step, s': Pool, loops: nat)
    requires !Internal(step) && s' == Apply(s, step)
    ensures Budget(s', loops) <= Budget(s, loops) + 3
    ensures Sum(s'.calls, Looping) == Sum(s.calls, Looping)
  {
    if step.BeginSubmit? {
      var v := s'.calls[|s.calls|];
      SumAppend(s.calls, v, Looping);
      SumAppend(s.calls, v, WritesAhead);
      SumAppend(s.calls, v, RankAt(s.workerNum));
    } else {
      SumAppend(s.closers, SwapStopped, CloserRank);
    }
    assert Writes(s') == Writes(s);
  }

  /** A step of a thread that exists spends budget. A call to Submit or Close that begins
      now brings at most three steps and never enters the loop. */
  lemma StepSpends(s: Pool, step: Step, loops: nat)
    requires s.stopped && s.queueClosed && Enabled(s, step)
    requires Sum(s.calls, Looping) <= loops
    ensures var s' := Apply(s, step);
            && s'.stopped && s'.queueClosed && Sum(s'.calls, Looping) <= loops
            && if Internal(step) then Budget(s', loops) < Budget(s, loops)
               else Budget(s', loops) <= Budget(s, loops) + 3
  {
    var s' := Apply(s, step);
    match step
    case BeginSubmit(_) => BeginSpends(s, step, s', loops);
    case BeginClose => BeginSpends(s, step, s', loops);
    case StepCall(c) => CallSpends(s, c, s', loops);
    case StepWorker(w, choice) => WorkerSpends(s, w, choice, s', loops);
    case WaitReturns => assert Writes(s') == Writes(s);
    case StepCloser(k, timer) => CloserSpends(s, k, timer, s', loops);
  }

  function InternalSteps(steps: seq<Step>): nat {
    if steps == [] then 0 else (if Internal(steps[0]) then 1 else 0) + InternalSteps(steps[1..])
  }

  /** Shutdown terminates: from a state with the channel closed, however the threads are
      scheduled, they take no more steps than that state allows plus three for each call
      to Submit or Close that begins later. */
  lemma {:induction false} ShutdownBound(s: Pool, steps: seq<Step>, loops: nat)
    requires s.stopped && s.queueClosed && CanRun(s, steps)
    requires Sum(s.calls, Looping) <= loops
    ensures InternalSteps(steps) <= Budget(s, loops) + 3 * (|steps| - InternalSteps(steps))
    decreases |steps|
  {
    if steps != [] {
      var s' := Apply(s, steps[0]);
      StepSpends(s, steps[0], loops);
      ShutdownBound(s', steps[1..], loops);
    }
  }

  /** No thread can take a step. */
  ghost predicate AtRest(s: Pool) {
    forall step :: Internal(step) ==> !Enabled(s, step)
  }

  lemma RestingThreads(s: Pool)
    requires s.queueClosed && AtRest(s)
    ensures forall w :: 0 <= w < |s.workers| ==> s.workers[w].pc.Gone?
    ensures forall c :: 0 <= c < |s.calls| ==> s.calls[c].pc.Returned?
    ensures forall k :: 0 <= k < |s.closers| ==> s.closers[k].Closed?
  {
    forall w | 0 <= w < |s.workers| ensures s.workers[w].pc.Gone? {
      assert !Enabled(s, StepWorker(w, Proceed));
    }
    forall c | 0 <= c < |s.calls| ensures s.calls[c].pc.Returned? {
      assert !Enabled(s, StepCall(c));
    }
    forall k | 0 <= k < |s.closers| ensures s.closers[k].Closed? {
      assert !Enabled(s, StepCloser(k, true));
      assert !Enabled(s, StepCloser(k, false));
    }
  }

  /** And it ends with nothing left over: when no thread can take a step, every worker is
      gone, both counters are zero, the group's waiter has returned, every Submit and Close
      has returned, and every accepted task has been completed. */
  lemma RestIsEmpty(s: Pool)
    requires Inv(s) && s.queueClosed && AtRest(s)
    ensures forall w :: 0 <= w < |s.workers| ==> s.workers[w].pc.Gone?
    ensures forall c :: 0 <= c < |s.calls| ==> s.calls[c].pc.Returned?
    ensures forall k :: 0 <= k < |s.closers| ==> s.closers[k].Closed?
    ensures s.workerNum == 0 && s.wg == 0 && s.drained
    ensures s.queue == [] && s.totalCompleted == |s.accepted|
  {
    RestingThreads(s);
    SumAtMost(s.calls, SpawnPending, 0);
    SumAtMost(s.calls, WgTaken, 0);
    SumAtMost(s.workers, OnBoard, 0);
    SumAtMost(s.workers, NotDone, 0);
    IdleWhenGroupIsZero(s);
    assert !Enabled(s, WaitReturns);
  }

  /** An open pool strands nothing either: once no core worker can take a step, the channel
      is empty, and every accepted task is completed or in the hands of a temporary worker. */
  lemma OpenRestIsEmpty(s: Pool, c: nat)
    requires Inv(s) && !s.queueClosed
    requires forall w, choice :: 0 <= w < s.cfg.coreWorkers ==> !Enabled(s, StepWorker(w, choice))
    ensures s.queue == []
    ensures c in s.accepted ==>
              || (multiset(s.finished)[c] == 1 && forall w :: 0 <= w < |s.workers| ==> Holding(c, s.workers[w]) == 0)
              || (multiset(s.finished)[c] == 0
                  && exists w :: s.cfg.coreWorkers <= w < |s.workers| && Holding(c, s.workers[w]) == 1)
  {
    assert !Enabled(s, StepWorker(0, Proceed));
    forall w | 0 <= w < s.cfg.coreWorkers ensures s.workers[w].pc.Receive? {
      assert !Enabled(s, StepWorker(w, Proceed));
      assert !Left(s.workers[w]);
    }
    assert s.taken == s.accepted;
    if c in s.accepted {
      UniqueOccurrence(s.accepted, c);
      if forall w :: 0 <= w < |s.workers| ==> Holding(c, s.workers[w]) == 0 {
        SumAtMost(s.workers, Holds(c), 0);
      } else {
        var w :| 0 <= w < |s.workers| && Holding(c, s.workers[w]) != 0;
        SumAtLeast(s.workers, w, Holds(c));
      }
    }
  }
}
