/** What every step of the goroutine pool keeps. */
module PoolInvariant {
  import opened PoolModel
  import opened Sums

  // Weights: each counts the threads at certain points of their program.

  function SpawnPending(call: Call): nat { if call.pc.AddWg? || call.pc.Spawn? then 1 else 0 }

  function WgTaken(call: Call): nat { if call.pc.Spawn? then 1 else 0 }

  function Grew(call: Call): nat { call.grew }

  function WasCounted(call: Call): nat {
    match call.pc
    case CheckStopped => 0
    case CountSubmit => 0
    case Returned(outcome) => if outcome == ErrPoolStopped || outcome == ErrNilTask then 0 else 1
    case _ => 1
  }

  function WasAccepted(call: Call): nat { if call.pc == Returned(Accepted) then 1 else 0 }

  /** The worker has not yet taken itself off workerNum. */
  function OnBoard(worker: Worker): nat { if worker.pc.DoneWg? || worker.pc.Gone? then 0 else 1 }

  function NotDone(worker: Worker): nat { if worker.pc.Gone? then 0 else 1 }

  function Panicking(worker: Worker): nat { if worker.pc.CountPanic? then 1 else 0 }

  /** The worker has a task taken from the channel and not yet counted as completed. */
  function Busy(worker: Worker): nat { if worker.pc.Run? || worker.pc.Count? then 1 else 0 }

  function Holding(task: nat, worker: Worker): nat {
    if Busy(worker) == 1 && worker.pc.task == task then 1 else 0
  }

  function Holds(task: nat): Worker -> nat { worker => Holding(task, worker) }

  function Ceiling(cfg: Config): int {
    if cfg.maxWorkers < cfg.coreWorkers then cfg.coreWorkers else cfg.maxWorkers
  }

  /** The two counters, written as sums over the threads that move them. */
  ghost predicate Accounting(s: Pool) {
    && s.workerNum == Sum(s.calls, SpawnPending) + Sum(s.workers, OnBoard)
    && s.wg == Sum(s.calls, WgTaken) + Sum(s.workers, NotDone)
    && |s.workers| + Sum(s.calls, SpawnPending) == s.cfg.coreWorkers + Sum(s.calls, Grew)
    && s.workerNum <= Ceiling(s.cfg)
  }

  predicate Left(worker: Worker) { worker.pc.Leave? || worker.pc.DoneWg? || worker.pc.Gone? }

  /** Core workers come first and leave the loop only on a closed and empty channel. */
  ghost predicate Staffing(s: Pool) {
    && 0 < s.cfg.coreWorkers <= |s.workers|
    && 0 < s.cfg.queueSize
    && |s.queue| <= s.cfg.queueSize
    && (forall w :: 0 <= w < |s.workers| ==> s.workers[w].temp == (s.cfg.coreWorkers <= w))
    && (forall w :: 0 <= w < s.cfg.coreWorkers && Left(s.workers[w]) ==> s.queueClosed && s.queue == [])
  }

  ghost predicate NoDuplicates(s: seq<nat>) {
    forall i, j :: 0 <= i < j < |s| ==> s[i] != s[j]
  }

  /** First come, first served, and nothing twice. */
  ghost predicate Fifo(s: Pool) {
    && s.accepted == s.taken + s.queue
    && NoDuplicates(s.accepted)
    && (forall c :: c in s.accepted <==> 0 <= c < |s.calls| && s.calls[c].pc == Returned(Accepted))
  }

  /** Every task taken from the channel is in the hands of a worker or counted. */
  ghost predicate Custody(s: Pool) {
    && |s.taken| == Sum(s.workers, Busy) + |s.finished|
    && forall t: nat :: multiset(s.taken)[t] == Sum(s.workers, Holds(t)) + multiset(s.finished)[t]
  }

  /** The three metrics. */
  ghost predicate Metrics(s: Pool) {
    && s.totalSubmitted == Sum(s.calls, WasCounted)
    && |s.accepted| == Sum(s.calls, WasAccepted)
    && s.totalCompleted == |s.finished|
    && s.totalPanic + Sum(s.workers, Panicking) <= s.totalCompleted
  }

  predicate Won(pc: ClosePc) {
    pc.CloseQueue? || pc.Await? || (pc.Closed? && pc.result != CloseErrStopped)
  }

  /** Only one call to Close gets past the swap, and a drained pool stays drained. */
  ghost predicate Closing(s: Pool) {
    && (s.queueClosed ==> s.stopped)
    && (forall k :: 0 <= k < |s.closers| && Won(s.closers[k]) ==>
          s.stopped && s.queueClosed == !s.closers[k].CloseQueue?)
    && (s.stopped ==> exists k :: 0 <= k < |s.closers| && Won(s.closers[k]))
    && (forall k, l :: 0 <= k < l < |s.closers| && Won(s.closers[k]) ==> !Won(s.closers[l]))
    && (s.drained ==> s.queueClosed && s.queue == [] && Sum(s.workers, Busy) == 0)
    && (forall k :: 0 <= k < |s.closers| && s.closers[k] == Closed(CloseOk) ==> s.drained)
  }

  /** The history of one call: what its loop has cost and what its sends have met. */
  predicate Climbing(s: Pool, call: Call) {
    && call.entry + call.failedCas + call.grew <= s.updates
    && call.grew <= 1
    && match call.pc {
      case CheckStopped => call.grew == call.refused == 0
      case CountSubmit => call.grew == call.refused == 0
      case FirstSend => call.grew == call.refused == 0
      case LoadWorkers => call.grew == 0 && call.refused == 1
      case Cas(seen, at) =>
        && call.grew == 0 && call.refused == 1
        && call.entry + call.failedCas <= at <= s.updates
        && seen < s.cfg.maxWorkers
        && (at == s.updates ==> seen == s.workerNum)
      case AddWg => call.grew == call.refused == 1
      case Spawn => call.grew == call.refused == 1
      case SecondSend => call.grew == call.refused == 1
      case LastSend => call.refused == 1 + call.grew && (call.grew == 1 || call.atLimit)
      case Returned(outcome) =>
        outcome == ErrPoolFull ==> call.refused == 2 + call.grew && (call.grew == 1 || call.atLimit)
    }
  }

  ghost predicate Growth(s: Pool) {
    forall c :: 0 <= c < |s.calls| ==> Climbing(s, s.calls[c])
  }

  ghost predicate Inv(s: Pool) {
    Accounting(s) && Staffing(s) && Fifo(s) && Custody(s) && Metrics(s) && Closing(s) && Growth(s)
  }

  // ---------- The pool NewPool returns ----------

  lemma {:induction false} FreshWorkers(n: nat, f: Worker -> nat)
    ensures Sum(seq(n, _ => Worker(false, Receive)), f) == n * f(Worker(false, Receive))
  {
    if n > 0 {
      FreshWorkers(n - 1, f);
      assert seq(n, _ => Worker(false, Receive))[..n - 1] == seq(n - 1, _ => Worker(false, Receive));
    }
  }

  lemma InvInit(cfg: Config)
    requires 0 < cfg.coreWorkers && 0 < cfg.queueSize
    ensures Inv(Init(cfg))
  {
    FreshWorkers(cfg.coreWorkers, OnBoard);
    FreshWorkers(cfg.coreWorkers, NotDone);
    FreshWorkers(cfg.coreWorkers, Panicking);
    FreshWorkers(cfg.coreWorkers, Busy);
    forall t: nat ensures Sum(Init(cfg).workers, Holds(t)) == 0 {
      FreshWorkers(cfg.coreWorkers, Holds(t));
    }
  }

  // ---------- Steps of Submit ----------

  /** What a call changes besides its own entry, by the point it is at. */
  lemma CallFrame(s: Pool, c: nat, s': Pool)
    requires Enabled(s, StepCall(c)) && s' == CallNext(s, c)
    ensures |s'.calls| == |s.calls| && s'.calls == s.calls[c := s'.calls[c]]
    ensures s'.workers == if s.calls[c].pc.Spawn? then s.workers + [Worker(true, Receive)] else s.workers
    ensures s'.cfg == s.cfg && s'.closers == s.closers && s'.queueClosed == s.queueClosed
    ensures s'.stopped == s.stopped && s'.drained == s.drained
    ensures s'.taken == s.taken && s'.finished == s.finished
    ensures s'.totalCompleted == s.totalCompleted && s'.totalPanic == s.totalPanic
    ensures if s'.calls[c].pc == Returned(Accepted)
            then !s.queueClosed && |s.queue| < s.cfg.queueSize
                 && s'.queue == s.queue + [c] && s'.accepted == s.accepted + [c]
            else s'.queue == s.queue && s'.accepted == s.accepted
  {
  }

  lemma CallKeepsAccounting(s: Pool, c: nat, s': Pool)
    requires Accounting(s) && Growth(s)
    requires Enabled(s, StepCall(c)) && s' == CallNext(s, c)
    ensures Accounting(s')
  {
    hide Sum;
    var v := s'.calls[c];
    assert Climbing(s, s.calls[c]);
    CallFrame(s, c, s');
    SumUpdate(s.calls, c, v, SpawnPending);
    SumUpdate(s.calls, c, v, WgTaken);
    SumUpdate(s.calls, c, v, Grew);
    if s.calls[c].pc.Spawn? {
      SumAppend(s.workers, Worker(true, Receive), OnBoard);
      SumAppend(s.workers, Worker(true, Receive), NotDone);
    }
  }

  lemma CallKeepsStaffing(s: Pool, c: nat, s': Pool)
    requires Staffing(s)
    requires Enabled(s, StepCall(c)) && s' == CallNext(s, c)
    ensures Staffing(s')
  {
    CallFrame(s, c, s');
  }

  lemma CallKeepsFifo(s: Pool, c: nat, s': Pool)
    requires Fifo(s)
    requires Enabled(s, StepCall(c)) && s' == CallNext(s, c)
    ensures Fifo(s')
  {
    CallFrame(s, c, s');
    assert c !in s.accepted;
  }

  lemma CallKeepsCustody(s: Pool, c: nat, s': Pool)
    requires Custody(s) && Closing(s)
    requires Enabled(s, StepCall(c)) && s' == CallNext(s, c)
    ensures Custody(s') && Closing(s')
  {
    hide Sum;
    CallFrame(s, c, s');
    var hired := Worker(true, Receive);
    SumAppend(s.workers, hired, Busy);
    forall t: nat
      ensures multiset(s'.taken)[t] == Sum(s'.workers, Holds(t)) + multiset(s'.finished)[t]
    {
      SumAppend(s.workers, hired, Holds(t));
    }
  }

  lemma CallKeepsMetrics(s: Pool, c: nat, s': Pool)
    requires Metrics(s)
    requires Enabled(s, StepCall(c)) && s' == CallNext(s, c)
    ensures Metrics(s')
  {
    hide Sum;
    CallFrame(s, c, s');
    SumUpdate(s.calls, c, s'.calls[c], WasCounted);
    SumUpdate(s.calls, c, s'.calls[c], WasAccepted);
    SumAppend(s.workers, Worker(true, Receive), Panicking);
  }

  /** Only a write to workerNum can make a loaded value stale. */
  lemma ClimbingStable(s: Pool, s': Pool, call: Call)
    requires Climbing(s, call)
    requires s'.cfg == s.cfg && s.updates <= s'.updates
    requires s.updates == s'.updates ==> s.workerNum == s'.workerNum
    ensures Climbing(s', call)
  {
  }

  lemma CallKeepsGrowth(s: Pool, c: nat, s': Pool)
    requires Growth(s)
    requires Enabled(s, StepCall(c)) && s' == CallNext(s, c)
    ensures Growth(s')
  {
    assert Climbing(s, s.calls[c]);
    assert Climbing(s', s'.calls[c]);
    forall d | 0 <= d < |s'.calls| ensures Climbing(s', s'.calls[d]) {
      if d != c {
        assert s'.calls[d] == s.calls[d];
        ClimbingStable(s, s', s.calls[d]);
      }
    }
  }

  // ---------- Steps of a worker ----------

  lemma WorkerFrame(s: Pool, w: nat, choice: Choice, s': Pool)
    requires WorkerEnabled(s, w, choice) && s' == WorkerNext(s, w, choice)
    ensures |s'.workers| == |s.workers| && s'.workers == s.workers[w := s'.workers[w]]
    ensures s'.workers[w].temp == s.workers[w].temp
    ensures s'.cfg == s.cfg && s'.calls == s.calls && s'.closers == s.closers
    ensures s'.queueClosed == s.queueClosed && s'.stopped == s.stopped && s'.drained == s.drained
    ensures s'.accepted == s.accepted && s'.totalSubmitted == s.totalSubmitted
    ensures if s'.workers[w].pc.Run?
            then s.workers[w].pc.Receive? && s.queue == [s'.workers[w].pc.task] + s'.queue
                 && s'.taken == s.taken + [s'.workers[w].pc.task]
            else s'.queue == s.queue && s'.taken == s.taken
    ensures if s.workers[w].pc.Count? then s'.finished == s.finished + [s.workers[w].pc.task]
            else s'.finished == s.finished
  {
  }

  lemma WorkerKeepsAccounting(s: Pool, w: nat, choice: Choice, s': Pool)
    requires Accounting(s)
    requires WorkerEnabled(s, w, choice) && s' == WorkerNext(s, w, choice)
    ensures Accounting(s')
  {
    hide Sum;
    WorkerFrame(s, w, choice, s');
    SumUpdate(s.workers, w, s'.workers[w], OnBoard);
    SumUpdate(s.workers, w, s'.workers[w], NotDone);
  }

  lemma WorkerKeepsStaffing(s: Pool, w: nat, choice: Choice, s': Pool)
    requires Staffing(s)
    requires WorkerEnabled(s, w, choice) && s' == WorkerNext(s, w, choice)
    ensures Staffing(s')
  {
    WorkerFrame(s, w, choice, s');
  }

  lemma WorkerKeepsFifo(s: Pool, w: nat, choice: Choice, s': Pool)
    requires Fifo(s)
    requires WorkerEnabled(s, w, choice) && s' == WorkerNext(s, w, choice)
    ensures Fifo(s')
  {
    WorkerFrame(s, w, choice, s');
  }

  lemma WorkerKeepsCustody(s: Pool, w: nat, choice: Choice, s': Pool)
    requires Custody(s)
    requires WorkerEnabled(s, w, choice) && s' == WorkerNext(s, w, choice)
    ensures Custody(s')
  {
    hide Sum, WorkerNext, WorkerEnabled;
    WorkerPassesCount(s, w, choice, s');
    forall t: nat
      ensures multiset(s'.taken)[t] == Sum(s'.workers, Holds(t)) + multiset(s'.finished)[t]
    {
      WorkerPassesTask(s, w, choice, s', t);
    }
  }

  lemma WorkerPassesCount(s: Pool, w: nat, choice: Choice, s': Pool)
    requires WorkerEnabled(s, w, choice) && s' == WorkerNext(s, w, choice)
    ensures |s'.taken| + Sum(s.workers, Busy) + |s.finished|
         == |s.taken| + Sum(s'.workers, Busy) + |s'.finished|
  {
    hide Sum;
    WorkerFrame(s, w, choice, s');
    SumUpdate(s.workers, w, s'.workers[w], Busy);
  }

  /** Receiving moves one task from the channel to the worker, counting moves it on. */
  lemma WorkerPassesTask(s: Pool, w: nat, choice: Choice, s': Pool, t: nat)
    requires WorkerEnabled(s, w, choice) && s' == WorkerNext(s, w, choice)
    ensures multiset(s'.taken)[t] + Sum(s.workers, Holds(t)) + multiset(s.finished)[t]
         == multiset(s.taken)[t] + Sum(s'.workers, Holds(t)) + multiset(s'.finished)[t]
  {
    hide Sum;
    WorkerFrame(s, w, choice, s');
    SumUpdate(s.workers, w, s'.workers[w], Holds(t));
  }

  lemma WorkerKeepsMetrics(s: Pool, w: nat, choice: Choice, s': Pool)
    requires Metrics(s)
    requires WorkerEnabled(s, w, choice) && s' == WorkerNext(s, w, choice)
    ensures Metrics(s')
  {
    hide Sum;
    WorkerFrame(s, w, choice, s');
    SumUpdate(s.workers, w, s'.workers[w], Panicking);
  }

  lemma WorkerKeepsClosing(s: Pool, w: nat, choice: Choice, s': Pool)
    requires Closing(s)
    requires WorkerEnabled(s, w, choice) && s' == WorkerNext(s, w, choice)
    ensures Closing(s')
  {
    WorkerFrame(s, w, choice, s');
    SumUpdate(s.workers, w, s'.workers[w], Busy);
  }

  lemma WorkerKeepsGrowth(s: Pool, w: nat, choice: Choice, s': Pool)
    requires Growth(s)
    requires WorkerEnabled(s, w, choice) && s' == WorkerNext(s, w, choice)
    ensures Growth(s')
  {
    WorkerFrame(s, w, choice, s');
    forall d | 0 <= d < |s'.calls| ensures Climbing(s', s'.calls[d]) {
      ClimbingStable(s, s', s.calls[d]);
    }
  }

  // ---------- The other steps ----------

  lemma GrowthStable(s: Pool, s': Pool)
    requires Growth(s) && s'.calls == s.calls
    requires s'.cfg == s.cfg && s'.updates == s.updates && s'.workerNum == s.workerNum
    ensures Growth(s')
  {
    forall d | 0 <= d < |s'.calls| ensures Climbing(s', s'.calls[d]) {
      ClimbingStable(s, s', s.calls[d]);
    }
  }

  lemma CloserKeepsClosing(s: Pool, k: nat, timer: bool, s': Pool)
    requires Closing(s)
    requires CloserEnabled(s, k, timer) && s' == CloserNext(s, k, timer)
    ensures Closing(s')
  {
    assert s'.closers == s.closers[k := s'.closers[k]];
    if s.stopped {
      var l :| 0 <= l < |s.closers| && Won(s.closers[l]);
      assert Won(s'.closers[l]);
    } else {
      assert Won(s'.closers[k]);
    }
  }

  lemma CloserKeepsInv(s: Pool, k: nat, timer: bool, s': Pool)
    requires Inv(s)
    requires CloserEnabled(s, k, timer) && s' == CloserNext(s, k, timer)
    ensures Inv(s')
  {
    CloserKeepsClosing(s, k, timer, s');
    GrowthStable(s, s');
  }

  /** The group counter reaches zero only when the channel is empty and nobody holds a task. */
  lemma IdleWhenGroupIsZero(s: Pool)
    requires Accounting(s) && Staffing(s) && s.wg == 0
    ensures forall w :: 0 <= w < |s.workers| ==> s.workers[w].pc.Gone?
    ensures s.queueClosed && s.queue == [] && Sum(s.workers, Busy) == 0
  {
    forall w | 0 <= w < |s.workers| ensures s.workers[w].pc.Gone? {
      SumAtLeast(s.workers, w, NotDone);
    }
    SumAtMost(s.workers, Busy, 0);
    assert Left(s.workers[0]);
  }

  lemma WaitKeepsInv(s: Pool, s': Pool)
    requires Inv(s) && Enabled(s, WaitReturns) && s' == Apply(s, WaitReturns)
    ensures Inv(s')
  {
    IdleWhenGroupIsZero(s);
    GrowthStable(s, s');
  }

  lemma BeginKeepsSums(s: Pool, nilTask: bool, s': Pool)
    requires Accounting(s) && Metrics(s) && s' == Apply(s, BeginSubmit(nilTask))
    ensures Accounting(s') && Metrics(s')
  {
    var v := s'.calls[|s.calls|];
    SumAppend(s.calls, v, SpawnPending);
    SumAppend(s.calls, v, WgTaken);
    SumAppend(s.calls, v, Grew);
    SumAppend(s.calls, v, WasCounted);
    SumAppend(s.calls, v, WasAccepted);
  }

  lemma BeginSubmitKeepsInv(s: Pool, nilTask: bool, s': Pool)
    requires Inv(s) && s' == Apply(s, BeginSubmit(nilTask))
    ensures Inv(s')
  {
    BeginKeepsSums(s, nilTask, s');
    forall d | 0 <= d < |s'.calls| ensures Climbing(s', s'.calls[d]) {
      if d < |s.calls| {
        ClimbingStable(s, s', s.calls[d]);
      }
    }
  }

  lemma CallKeepsInv(s: Pool, c: nat, s': Pool)
    requires Inv(s) && Enabled(s, StepCall(c)) && s' == CallNext(s, c)
    ensures Inv(s')
  {
    CallKeepsAccounting(s, c, s');
    CallKeepsStaffing(s, c, s');
    CallKeepsFifo(s, c, s');
    CallKeepsCustody(s, c, s');
    CallKeepsMetrics(s, c, s');
    CallKeepsGrowth(s, c, s');
  }

  lemma WorkerKeepsInv(s: Pool, w: nat, choice: Choice, s': Pool)
    requires Inv(s) && WorkerEnabled(s, w, choice) && s' == WorkerNext(s, w, choice)
    ensures Inv(s')
  {
    WorkerKeepsAccounting(s, w, choice, s');
    WorkerKeepsStaffing(s, w, choice, s');
    WorkerKeepsFifo(s, w, choice, s');
    WorkerKeepsCustody(s, w, choice, s');
    WorkerKeepsMetrics(s, w, choice, s');
    WorkerKeepsClosing(s, w, choice, s');
    WorkerKeepsGrowth(s, w, choice, s');
  }

  lemma BeginCloseKeepsInv(s: Pool, s': Pool)
    requires Inv(s) && s' == Apply(s, BeginClose)
    ensures Inv(s')
  {
    BeginCloseKeepsClosing(s, s');
    GrowthStable(s, s');
  }

  lemma BeginCloseKeepsClosing(s: Pool, s': Pool)
    requires Closing(s) && s' == Apply(s, BeginClose)
    ensures Closing(s')
  {
    if s.stopped {
      var k :| 0 <= k < |s.closers| && Won(s.closers[k]);
      assert Won(s'.closers[k]);
    }
  }

  lemma InvStep(s: Pool, step: Step)
    requires Inv(s) && Enabled(s, step)
    ensures Inv(Apply(s, step))
  {
    hide Inv;
    var s' := Apply(s, step);
    match step
    case BeginSubmit(nilTask) => BeginSubmitKeepsInv(s, nilTask, s');
    case BeginClose => BeginCloseKeepsInv(s, s');
    case StepCall(c) => CallKeepsInv(s, c, s');
    case StepWorker(w, choice) => WorkerKeepsInv(s, w, choice, s');
    case WaitReturns => WaitKeepsInv(s, s');
    case StepCloser(k, timer) => CloserKeepsInv(s, k, timer, s');
  }

  lemma {:induction false} InvRun(s: Pool, steps: seq<Step>)
    requires Inv(s) && CanRun(s, steps)
    ensures Inv(RunAll(s, steps))
    decreases |steps|
  {
    if steps != [] {
      InvStep(s, steps[0]);
      InvRun(Apply(s, steps[0]), steps[1..]);
    }
  }
}
