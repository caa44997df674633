/** What holds of the goroutine pool in every run, from the state NewPool returns. */
module PoolTheorems {
  import opened PoolModel
  import opened PoolInvariant
  import opened Sums

  predicate ValidConfig(cfg: Config) {
    0 < cfg.coreWorkers && 0 < cfg.queueSize
  }

  ghost predicate ReachedBy(cfg: Config, steps: seq<Step>, s: Pool) {
    ValidConfig(cfg) && CanRun(Init(cfg), steps) && s == RunAll(Init(cfg), steps)
  }

  lemma ReachedInv(cfg: Config, steps: seq<Step>, s: Pool)
    requires ReachedBy(cfg, steps, s)
    ensures Inv(s) && s.cfg == cfg
  {
    InvInit(cfg);
    InvRun(Init(cfg), steps);
    RunKeepsConfig(Init(cfg), steps);
  }

  lemma {:induction false} RunKeepsConfig(s: Pool, steps: seq<Step>)
    requires CanRun(s, steps)
    ensures RunAll(s, steps).cfg == s.cfg
    decreases |steps|
  {
    if steps != [] {
      RunKeepsConfig(Apply(s, steps[0]), steps[1..]);
    }
  }

  // ---------- Graceful drain ----------

  lemma {:induction false} UniqueOccurrence(s: seq<nat>, x: nat)
    requires NoDuplicates(s)
    ensures multiset(s)[x] == if x in s then 1 else 0
  {
    if s != [] {
      var front := s[..|s| - 1];
      assert s == front + [s[|s| - 1]];
      UniqueOccurrence(front, x);
    }
  }

  lemma NobodyHolds(workers: seq<Worker>, t: nat)
    requires Sum(workers, Busy) == 0
    ensures Sum(workers, Holds(t)) == 0
  {
    SumMonotone(workers, Holds(t), Busy);
  }

  /** If some call to Close returned nil, the task of every Submit call that returned nil
      has been through runTask exactly once, no other task has, and the channel is empty. */
  lemma GracefulDrain(cfg: Config, steps: seq<Step>, s: Pool, k: nat)
    requires ReachedBy(cfg, steps, s)
    requires k < |s.closers| && s.closers[k] == Closed(CloseOk)
    ensures forall c: nat {:trigger multiset(s.finished)[c]} ::
              multiset(s.finished)[c] == if c < |s.calls| && s.calls[c].pc == Returned(Accepted) then 1 else 0
    ensures s.queue == [] && s.totalCompleted == |s.accepted|
  {
    ReachedInv(cfg, steps, s);
    forall c: nat
      ensures multiset(s.finished)[c] == if c < |s.calls| && s.calls[c].pc == Returned(Accepted) then 1 else 0
    {
      NobodyHolds(s.workers, c);
      UniqueOccurrence(s.accepted, c);
      assert s.taken == s.accepted;
    }
  }

  /** At any moment, whether or not the pool is closing, no task has been completed twice,
      none is both completed and in a worker's hands, and none runs without being accepted. */
  lemma AtMostOnce(cfg: Config, steps: seq<Step>, s: Pool, c: nat)
    requires ReachedBy(cfg, steps, s)
    ensures multiset(s.finished)[c] + Sum(s.workers, Holds(c)) + multiset(s.queue)[c]
         == if c < |s.calls| && s.calls[c].pc == Returned(Accepted) then 1 else 0
  {
    ReachedInv(cfg, steps, s);
    UniqueOccurrence(s.accepted, c);
    assert multiset(s.accepted) == multiset(s.taken) + multiset(s.queue);
  }

  // ---------- Conservation ----------

  function WasRejected(call: Call): nat { if call.pc == Returned(ErrPoolFull) then 1 else 0 }

  function WasLost(call: Call): nat { if call.pc == Returned(SendPanic) then 1 else 0 }

  function InFlight(call: Call): nat { if !call.pc.Returned? then WasCounted(call) else 0 }

  function Settled(call: Call): nat { if call.pc.Returned? then WasCounted(call) else 0 }

  function NotAccepted(call: Call): nat { WasRejected(call) + WasLost(call) }

  /** Tasks are conserved: on the submitting side by outcome, on the running side by place. */
  lemma TaskConservation(cfg: Config, steps: seq<Step>, s: Pool)
    requires ReachedBy(cfg, steps, s)
    ensures s.totalSubmitted
         == |s.accepted| + Sum(s.calls, WasRejected) + Sum(s.calls, WasLost) + Sum(s.calls, InFlight)
    ensures |s.accepted| == |s.queue| + Sum(s.workers, Busy) + s.totalCompleted
    ensures s.totalPanic <= s.totalCompleted <= s.totalSubmitted
    ensures s.accepted == s.taken + s.queue && NoDuplicates(s.accepted)
  {
    ReachedInv(cfg, steps, s);
    SumPlus(s.calls, WasCounted, InFlight, Settled);
    SumPlus(s.calls, Settled, WasAccepted, NotAccepted);
    SumPlus(s.calls, NotAccepted, WasRejected, WasLost);
  }

  // ---------- Worker accounting ----------

  /** workerNum counts the spawns decided and the workers that have not signed off, the
      group counts the goroutines that have not called Done, and both bound the tasks
      that run at the same time. */
  lemma WorkerBounds(cfg: Config, steps: seq<Step>, s: Pool)
    requires ReachedBy(cfg, steps, s)
    ensures s.workerNum == Sum(s.calls, SpawnPending) + Sum(s.workers, OnBoard)
    ensures s.wg == Sum(s.calls, WgTaken) + Sum(s.workers, NotDone)
    ensures Sum(s.workers, Busy) <= s.workerNum <= Ceiling(cfg)
    ensures !s.queueClosed ==> cfg.coreWorkers <= s.workerNum
  {
    ReachedInv(cfg, steps, s);
    SumMonotone(s.workers, Busy, OnBoard);
    if !s.queueClosed {
      CoreOnBoard(s.workers, cfg.coreWorkers);
    }
  }

  lemma {:induction false} CoreOnBoard(workers: seq<Worker>, n: nat)
    requires n <= |workers|
    requires forall w :: 0 <= w < n ==> !Left(workers[w])
    ensures n <= Sum(workers, OnBoard)
  {
    if workers != [] {
      var m := |workers| - 1;
      CoreOnBoard(workers[..m], if n <= m then n else m);
    }
  }

  // ---------- One Submit call ----------

  /** A call spawns at most one worker, and every failed compare-and-swap is paid for by a
      write to workerNum that somebody else made after the call began. */
  lemma CasBounds(cfg: Config, steps: seq<Step>, s: Pool, c: nat)
    requires ReachedBy(cfg, steps, s) && c < |s.calls|
    ensures s.calls[c].grew <= 1
    ensures s.calls[c].failedCas <= s.updates - s.calls[c].entry - s.calls[c].grew
    ensures |s.workers| <= cfg.coreWorkers + |s.calls|
  {
    ReachedInv(cfg, steps, s);
    assert Climbing(s, s.calls[c]);
    forall d | 0 <= d < |s.calls| ensures Grew(s.calls[d]) <= 1 {
      assert Climbing(s, s.calls[d]);
    }
    SumAtMost(s.calls, Grew, 1);
  }

  /** The three tiers: a call is turned down with ErrPoolFull only after every one of its
      sends met a full channel, two if it saw the worker limit and three if it started a
      worker; and it did one of the two. */
  lemma RejectionIsEarned(cfg: Config, steps: seq<Step>, s: Pool, c: nat)
    requires ReachedBy(cfg, steps, s) && c < |s.calls|
    requires s.calls[c].pc == Returned(ErrPoolFull)
    ensures s.calls[c].refused == 2 + s.calls[c].grew
    ensures s.calls[c].grew == 1 || s.calls[c].atLimit
  {
    ReachedInv(cfg, steps, s);
    assert Climbing(s, s.calls[c]);
  }

  /** A call that has returned never changes again. */
  lemma {:induction false} ReturnedForGood(s: Pool, steps: seq<Step>, c: nat)
    requires CanRun(s, steps) && c < |s.calls| && s.calls[c].pc.Returned?
    ensures c < |RunAll(s, steps).calls| && RunAll(s, steps).calls[c] == s.calls[c]
    decreases |steps|
  {
    if steps != [] {
      ReturnedForGood(Apply(s, steps[0]), steps[1..], c);
    }
  }

  predicate Refused(call: Call) {
    call.pc == CheckStopped || call.pc == Returned(ErrPoolStopped) || call.pc == Returned(ErrNilTask)
  }

  /** A call that begins once the pool is stopped is turned away: it is never accepted,
      never panics and never starts a worker. */
  lemma {:induction false} LateCallsAreRefused(s: Pool, steps: seq<Step>, c: nat)
    requires s.stopped && CanRun(s, steps)
    requires c < |s.calls| ==> Refused(s.calls[c])
    ensures c < |RunAll(s, steps).calls| ==> Refused(RunAll(s, steps).calls[c])
    decreases |steps|
  {
    if steps != [] {
      LateCallsAreRefused(Apply(s, steps[0]), steps[1..], c);
    }
  }

  /** One more step of a run. */
  lemma Extend(cfg: Config, steps: seq<Step>, s: Pool, step: Step) returns (longer: seq<Step>, s': Pool)
    requires ReachedBy(cfg, steps, s) && Enabled(s, step)
    ensures ReachedBy(cfg, longer, s') && longer == steps + [step] && s' == Apply(s, step)
  {
    longer, s' := steps + [step], Apply(s, step);
    assert RunAll(s, [step]) == RunAll(s', []) == s';
    RunConcat(Init(cfg), steps, [step]);
  }
}
