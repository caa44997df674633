/** The pool as code: the fields the goroutines share, one method for each atomic action,
    and Submit, SubmitWithRetry and Close built from them. Between two atomic actions the
    other goroutines run: `env` lists, for each such gap, the steps the scheduler tries. */
module GoroutinePoolCode {
  import opened PoolModel
  import opened PoolInvariant
  import opened PoolTheorems

  /** The goroutine that executes the method. */
  datatype Self = Submitter(c: nat) | Shutter(k: nat)

  predicate Mine(self: Self, step: Step) {
    match step
    case StepCall(c) => self == Submitter(c)
    case StepCloser(k, _) => self == Shutter(k)
    case _ => false
  }

  /** The steps the scheduler tries before the goroutine's next action, and those for the
      gaps after it. */
  function Gap(env: seq<seq<Step>>): seq<Step> { if env == [] then [] else env[0] }

  function Rest(env: seq<seq<Step>>): seq<seq<Step>> { if env == [] then [] else env[1..] }

  /** What the others make of the pool when they take those of the steps that are possible. */
  function Scheduled(s: Pool, self: Self, steps: seq<Step>): Pool {
    if steps == [] then s
    else
      var before := Scheduled(s, self, steps[..|steps| - 1]);
      var step := steps[|steps| - 1];
      if Enabled(before, step) && !Mine(self, step) then Apply(before, step) else before
  }

  /** The others run, gap by gap, until the waiter has returned or the timer fires. */
  function Awaited(s: Pool, self: Self, env: seq<seq<Step>>): Pool
    decreases |env|
  {
    if env == [] || s.drained then s else Awaited(Scheduled(s, self, env[0]), self, env[1..])
  }

  class GoroutinePool {
    const coreWorkers: nat
    const maxWorkers: int
    const queueSize: nat
    var taskQueue: seq<nat>
    var queueClosed: bool
    var workerNum: int
    var wg: int
    var stopped: bool
    var totalSubmitted: nat
    var totalCompleted: nat
    var totalPanic: nat
    var drained: bool
    // where every goroutine is
    var calls: seq<Call>
    var workers: seq<Worker>
    var closers: seq<ClosePc>
    // history
    var accepted: seq<nat>
    var taken: seq<nat>
    var finished: seq<nat>
    var updates: nat
    ghost var log: seq<Step>

    function View(): Pool
      reads this
    {
      Pool(Config(coreWorkers, maxWorkers, queueSize), taskQueue, queueClosed, workerNum, wg, stopped,
           totalSubmitted, totalCompleted, totalPanic, drained, calls, workers, closers,
           accepted, taken, finished, updates)
    }

    /** The state is the one that the logged steps lead to. */
    ghost predicate Valid()
      reads this
    {
      ReachedBy(Config(coreWorkers, maxWorkers, queueSize), log, View())
    }

    constructor (coreWorkers: nat, maxWorkers: nat, queueSize: nat)
      requires 0 < coreWorkers && 0 < queueSize
      ensures Valid() && log == []
      ensures View() == Init(Config(coreWorkers, StoredInt32(maxWorkers), queueSize))
    {
      this.coreWorkers, this.maxWorkers, this.queueSize := coreWorkers, StoredInt32(maxWorkers), queueSize;
      taskQueue, queueClosed, workerNum, wg, stopped := [], false, 0, 0, false;
      totalSubmitted, totalCompleted, totalPanic, drained := 0, 0, 0, false;
      calls, workers, closers, accepted, taken, finished, updates, log := [], [], [], [], [], [], 0, [];
      new;
      StartCoreWorkers();
    }

    method StartCoreWorkers()
      requires workerNum == wg == 0 && workers == []
      modifies this`workerNum, this`wg, this`workers
      ensures workerNum == wg == coreWorkers && workers == seq(coreWorkers, _ => Worker(false, Receive))
    {
      for i := 0 to coreWorkers
        invariant workerNum == wg == i && workers == seq(i, _ => Worker(false, Receive))
      {
        workerNum := workerNum + 1;
        wg := wg + 1;
        workers := workers + [Worker(false, Receive)];
      }
    }

    static method NewPool(coreWorkers: int, maxWorkers: int, queueSize: int) returns (p: GoroutinePool?)
      ensures p == null <==> coreWorkers <= 0 || maxWorkers < coreWorkers || queueSize <= 0
      ensures p != null ==> fresh(p) && p.Valid() && p.log == []
                            && p.View() == Init(Config(coreWorkers, StoredInt32(maxWorkers), queueSize))
    {
      if coreWorkers <= 0 || maxWorkers < coreWorkers || queueSize <= 0 {
        return null;
      }
      p := new GoroutinePool(coreWorkers, maxWorkers, queueSize);
    }

    // ---------- The atomic actions of Submit ----------

    twostate predicate Took(step: Step)
      reads this
    {
      && old(Enabled(View(), step))
      && View() == Apply(old(View()), step)
      && log == old(log) + [step]
    }

    /** A step has been taken if the fields are now what the step makes of them. */
    twostate lemma Commit(step: Step)
      requires old(Valid()) && old(Enabled(View(), step))
      requires View() == Apply(old(View()), step) && log == old(log) + [step]
      ensures Valid() && Took(step)
    {
      var _, _ := Extend(old(View()).cfg, old(log), old(View()), step);
    }

    method BeginCall(nilTask: bool) returns (c: nat)
      requires Valid()
      modifies this
      ensures Valid() && Took(BeginSubmit(nilTask)) && stopped == old(stopped)
      ensures c == old(|calls|) < |calls|
      ensures calls[c].pc == if nilTask then Returned(ErrNilTask) else CheckStopped
    {
      hide ReachedBy, Valid, Took;
      c := |calls|;
      calls := calls + [NewCall(if nilTask then Returned(ErrNilTask) else CheckStopped, updates)];
      log := log + [BeginSubmit(nilTask)];
      Commit(BeginSubmit(nilTask));
    }

    /** A step that changes nothing but where call c is. */
    method MoveCall(c: nat, call: Call)
      requires Valid() && Enabled(View(), StepCall(c)) && c < |calls|
      requires Apply(View(), StepCall(c)) == View().(calls := calls[c := call])
      modifies this
      ensures Valid() && Took(StepCall(c)) && c < |calls| && calls[c] == call
      ensures updates == old(updates) && workerNum == old(workerNum) && stopped == old(stopped)
      ensures queueClosed == old(queueClosed) && taskQueue == old(taskQueue)
    {
      hide ReachedBy, Valid, Took, Apply, Enabled;
      calls, log := calls[c := call], log + [StepCall(c)];
      Commit(StepCall(c));
    }

    method LoadStopped(c: nat) returns (isStopped: bool)
      requires Valid() && c < |calls| && calls[c].pc == CheckStopped
      modifies this
      ensures Valid() && Took(StepCall(c)) && isStopped == stopped == old(stopped)
      ensures c < |calls| && calls[c].pc == if isStopped then Returned(ErrPoolStopped) else CountSubmit
    {
      hide ReachedBy, Valid;
      isStopped := stopped;
      MoveCall(c, calls[c].(pc := if isStopped then Returned(ErrPoolStopped) else CountSubmit));
    }

    method AddSubmitted(c: nat)
      requires Valid() && c < |calls| && calls[c].pc == CountSubmit
      modifies this
      ensures Valid() && Took(StepCall(c))
      ensures c < |calls| && calls[c].pc == FirstSend
    {
      hide ReachedBy, Valid, Took;
      totalSubmitted := totalSubmitted + 1;
      calls, log := calls[c := calls[c].(pc := FirstSend)], log + [StepCall(c)];
      Commit(StepCall(c));
    }

    /** The compare-and-swaps of a call, successful or not. */
    function Paid(c: nat): int
      requires c < |calls|
      reads this
    {
      calls[c].failedCas + calls[c].grew
    }

    /** select with a send case and a default; `full` is where the default leads. */
    method TrySend(c: nat, full: CallPc) returns (pc: CallPc)
      requires Valid() && c < |calls|
      requires (calls[c].pc == FirstSend && full == LoadWorkers)
            || (calls[c].pc == SecondSend && full == LastSend)
            || (calls[c].pc == LastSend && full == Returned(ErrPoolFull))
      modifies this
      ensures Valid() && Took(StepCall(c)) && c < |calls| && pc == calls[c].pc
      ensures pc == if queueClosed then Returned(SendPanic)
                    else if old(|taskQueue|) < queueSize then Returned(Accepted) else full
      ensures queueClosed == old(queueClosed) && updates == old(updates) && Paid(c) == old(Paid(c))
      ensures taskQueue == old(taskQueue) + if pc == Returned(Accepted) then [c] else []
    {
      hide ReachedBy, Valid, Apply, Enabled;
      SendEffect(View(), c, full);
      if queueClosed {
        MoveCall(c, calls[c].(pc := Returned(SendPanic)));
      } else if |taskQueue| < queueSize {
        Enqueue(c);
      } else {
        MoveCall(c, calls[c].(pc := full, refused := calls[c].refused + 1));
      }
      pc := calls[c].pc;
    }

    method Enqueue(c: nat)
      requires Valid() && Enabled(View(), StepCall(c)) && c < |calls|
      requires Apply(View(), StepCall(c))
            == View().(calls := calls[c := calls[c].(pc := Returned(Accepted))],
                       queue := taskQueue + [c], accepted := accepted + [c])
      modifies this
      ensures Valid() && Took(StepCall(c)) && c < |calls| && calls[c] == old(calls[c]).(pc := Returned(Accepted))
      ensures updates == old(updates) && queueClosed == old(queueClosed) && taskQueue == old(taskQueue) + [c]
    {
      hide ReachedBy, Valid, Took, Apply, Enabled;
      taskQueue, accepted := taskQueue + [c], accepted + [c];
      calls, log := calls[c := calls[c].(pc := Returned(Accepted))], log + [StepCall(c)];
      Commit(StepCall(c));
    }

    method LoadWorkerNum(c: nat) returns (current: int)
      requires Valid() && c < |calls| && calls[c].pc == LoadWorkers
      modifies this
      ensures Valid() && Took(StepCall(c)) && current == workerNum == old(workerNum)
      ensures c < |calls| && updates == old(updates) && Paid(c) == old(Paid(c))
      ensures calls[c].pc == if current >= maxWorkers then LastSend else Cas(current, updates)
    {
      hide ReachedBy, Valid;
      current := workerNum;
      if current >= maxWorkers {
        MoveCall(c, calls[c].(pc := LastSend, atLimit := true));
      } else {
        MoveCall(c, calls[c].(pc := Cas(current, updates)));
      }
    }

    method CompareAndSwap(c: nat, current: int) returns (swapped: bool)
      requires Valid() && c < |calls| && calls[c].pc.Cas? && calls[c].pc.seen == current
      modifies this
      ensures Valid() && Took(StepCall(c)) && swapped == (old(workerNum) == current)
      ensures updates == old(updates) + if swapped then 1 else 0
      ensures c < |calls| && Paid(c) == old(Paid(c)) + 1
      ensures calls[c].pc == if swapped then AddWg else LoadWorkers
    {
      hide ReachedBy, Valid, Took;
      swapped := workerNum == current;
      if swapped {
        SwapIn(c);
      } else {
        MoveCall(c, calls[c].(pc := LoadWorkers, failedCas := calls[c].failedCas + 1));
      }
    }

    method SwapIn(c: nat)
      requires Valid() && c < |calls| && calls[c].pc.Cas? && calls[c].pc.seen == workerNum
      modifies this
      ensures Valid() && Took(StepCall(c)) && updates == old(updates) + 1
      ensures c < |calls| && calls[c] == old(calls[c]).(pc := AddWg, grew := old(calls[c]).grew + 1)
    {
      hide ReachedBy, Valid, Took, Enabled, Apply;
      SwapEffect(View(), c);
      workerNum := workerNum + 1;
      updates := updates + 1;
      calls := calls[c := calls[c].(pc := AddWg, grew := calls[c].grew + 1)];
      log := log + [StepCall(c)];
      Commit(StepCall(c));
    }

    method AddToGroup(c: nat)
      requires Valid() && c < |calls| && calls[c].pc == AddWg
      modifies this
      ensures Valid() && Took(StepCall(c))
      ensures c < |calls| && calls[c] == old(calls[c]).(pc := Spawn) && updates == old(updates)
    {
      hide ReachedBy, Valid, Took;
      wg := wg + 1;
      calls, log := calls[c := calls[c].(pc := Spawn)], log + [StepCall(c)];
      Commit(StepCall(c));
    }

    method GoTempWorker(c: nat)
      requires Valid() && c < |calls| && calls[c].pc == Spawn
      modifies this
      ensures Valid() && Took(StepCall(c))
      ensures c < |calls| && calls[c] == old(calls[c]).(pc := SecondSend) && updates == old(updates)
    {
      hide ReachedBy, Valid, Took;
      workers := workers + [Worker(true, Receive)];
      calls, log := calls[c := calls[c].(pc := SecondSend)], log + [StepCall(c)];
      Commit(StepCall(c));
    }

    // ---------- The atomic actions of workers and of Close ----------

    /** A step that changes nothing but where worker w is. */
    method MoveWorker(w: nat, choice: Choice, pc: WorkerPc)
      requires Valid() && Enabled(View(), StepWorker(w, choice)) && w < |workers|
      requires Apply(View(), StepWorker(w, choice)) == View().(workers := workers[w := workers[w].(pc := pc)])
      modifies this
      ensures Valid() && Took(StepWorker(w, choice))
    {
      hide ReachedBy, Valid, Took, Apply, Enabled;
      workers, log := workers[w := workers[w].(pc := pc)], log + [StepWorker(w, choice)];
      Commit(StepWorker(w, choice));
    }

    /** The receive of a worker's loop: a task, the closed and empty channel, or, in a
        temporary worker, the idle timer. */
    method ReceiveTask(w: nat, choice: Choice)
      requires Valid() && WorkerEnabled(View(), w, choice) && workers[w].pc.Receive?
      modifies this
      ensures Valid() && Took(StepWorker(w, choice))
    {
      if choice == TimerFires || taskQueue == [] {
        MoveWorker(w, choice, Leave);
      } else {
        TakeTask(w);
      }
    }

    method TakeTask(w: nat)
      requires Valid() && w < |workers| && workers[w].pc.Receive? && taskQueue != []
      modifies this
      ensures Valid() && Took(StepWorker(w, Proceed))
    {
      hide ReachedBy, Valid, Took, Enabled, Apply;
      TakeEffect(View(), w);
      workers := workers[w := workers[w].(pc := Run(taskQueue[0]))];
      taken := taken + [taskQueue[0]];
      taskQueue := taskQueue[1..];
      log := log + [StepWorker(w, Proceed)];
      Commit(StepWorker(w, Proceed));
    }

    /** The two counters in the deferred function of runTask. */
    method RecordTask(w: nat)
      requires Valid() && WorkerEnabled(View(), w, Proceed)
      requires workers[w].pc.Count? || workers[w].pc.CountPanic?
      modifies this
      ensures Valid() && Took(StepWorker(w, Proceed))
    {
      if workers[w].pc.Count? {
        AddCompleted(w);
      } else {
        AddPanic(w);
      }
    }

    method AddCompleted(w: nat)
      requires Valid() && w < |workers| && workers[w].pc.Count?
      modifies this
      ensures Valid() && Took(StepWorker(w, Proceed))
    {
      hide ReachedBy, Valid, Took, Enabled, Apply;
      var pc := workers[w].pc;
      CountEffect(View(), w);
      totalCompleted, finished := totalCompleted + 1, finished + [pc.task];
      workers := workers[w := workers[w].(pc := if pc.panicked then CountPanic else Receive)];
      log := log + [StepWorker(w, Proceed)];
      Commit(StepWorker(w, Proceed));
    }

    method AddPanic(w: nat)
      requires Valid() && w < |workers| && workers[w].pc.CountPanic?
      modifies this
      ensures Valid() && Took(StepWorker(w, Proceed))
    {
      hide ReachedBy, Valid, Took;
      totalPanic := totalPanic + 1;
      workers, log := workers[w := workers[w].(pc := Receive)], log + [StepWorker(w, Proceed)];
      Commit(StepWorker(w, Proceed));
    }

    /** The deferred calls of a worker, last in first out. */
    method SignOff(w: nat)
      requires Valid() && WorkerEnabled(View(), w, Proceed)
      requires workers[w].pc.Leave? || workers[w].pc.DoneWg?
      modifies this
      ensures Valid() && Took(StepWorker(w, Proceed))
    {
      if workers[w].pc.Leave? {
        SubtractWorker(w);
      } else {
        Done(w);
      }
    }

    method SubtractWorker(w: nat)
      requires Valid() && w < |workers| && workers[w].pc.Leave?
      modifies this
      ensures Valid() && Took(StepWorker(w, Proceed))
    {
      hide ReachedBy, Valid, Took, Enabled, Apply;
      LeaveEffect(View(), w);
      workerNum, updates := workerNum - 1, updates + 1;
      workers, log := workers[w := workers[w].(pc := DoneWg)], log + [StepWorker(w, Proceed)];
      Commit(StepWorker(w, Proceed));
    }

    method Done(w: nat)
      requires Valid() && w < |workers| && workers[w].pc.DoneWg?
      modifies this
      ensures Valid() && Took(StepWorker(w, Proceed))
    {
      hide ReachedBy, Valid, Took;
      wg := wg - 1;
      workers, log := workers[w := workers[w].(pc := Gone)], log + [StepWorker(w, Proceed)];
      Commit(StepWorker(w, Proceed));
    }

    method WorkerAction(w: nat, choice: Choice)
      requires Valid() && WorkerEnabled(View(), w, choice)
      modifies this
      ensures Valid() && Took(StepWorker(w, choice))
    {
      hide ReachedBy, Valid, Took;
      if workers[w].pc.Receive? {
        ReceiveTask(w, choice);
      } else if workers[w].pc.Run? {
        MoveWorker(w, choice, Count(workers[w].pc.task, choice == TaskPanics));
      } else if workers[w].pc.Leave? || workers[w].pc.DoneWg? {
        SignOff(w);
      } else {
        RecordTask(w);
      }
    }

    method CloserAction(k: nat, timer: bool)
      requires Valid() && CloserEnabled(View(), k, timer)
      modifies this
      ensures Valid() && Took(StepCloser(k, timer)) && drained == old(drained)
      ensures k < |closers|
              && closers[k] == match old(closers[k]) {
                case SwapStopped => if old(stopped) then Closed(CloseErrStopped) else CloseQueue
                case CloseQueue => Await
                case Await => Closed(if timer then CloseTimeout else CloseOk)
                case Closed(result) => Closed(result)
              }
    {
      hide ReachedBy, Valid, Took;
      match closers[k] {
      case SwapStopped =>
        if stopped {
          closers := closers[k := Closed(CloseErrStopped)];
        } else {
          stopped := true;
          closers := closers[k := CloseQueue];
        }
      case CloseQueue =>
        queueClosed := true;
        closers := closers[k := Await];
      case Await => closers := closers[k := Closed(if timer then CloseTimeout else CloseOk)];
      }
      log := log + [StepCloser(k, timer)];
      Commit(StepCloser(k, timer));
    }

    method GroupWaitReturns()
      requires Valid() && Enabled(View(), WaitReturns)
      modifies this
      ensures Valid() && Took(WaitReturns)
    {
      hide ReachedBy, Valid, Took;
      drained := true;
      log := log + [WaitReturns];
      Commit(WaitReturns);
    }

    method BeginClosing() returns (k: nat)
      requires Valid()
      modifies this
      ensures Valid() && Took(BeginClose) && k == old(|closers|)
    {
      hide ReachedBy, Valid, Took;
      k := |closers|;
      closers := closers + [SwapStopped];
      log := log + [BeginClose];
      Commit(BeginClose);
    }

    method CallAction(c: nat)
      requires Valid() && Enabled(View(), StepCall(c))
      modifies this
      ensures Valid() && Took(StepCall(c))
    {
      match calls[c].pc
      case CheckStopped => var _ := LoadStopped(c);
      case CountSubmit => AddSubmitted(c);
      case FirstSend => var _ := TrySend(c, LoadWorkers);
      case LoadWorkers => var _ := LoadWorkerNum(c);
      case Cas(seen, _) => var _ := CompareAndSwap(c, seen);
      case AddWg => AddToGroup(c);
      case Spawn => GoTempWorker(c);
      case SecondSend => var _ := TrySend(c, LastSend);
      case LastSend => var _ := TrySend(c, Returned(ErrPoolFull));
    }

    method Execute(step: Step)
      requires Valid() && Enabled(View(), step)
      modifies this
      ensures Valid() && Took(step)
    {
      match step
      case BeginSubmit(nilTask) => var _ := BeginCall(nilTask);
      case BeginClose => var _ := BeginClosing();
      case StepCall(c) => CallAction(c);
      case StepWorker(w, choice) => WorkerAction(w, choice);
      case WaitReturns => GroupWaitReturns();
      case StepCloser(k, timer) => CloserAction(k, timer);
    }

    // ---------- Interference ----------

    /** The steps of others leave the goroutine `self` where it is. */
    ghost predicate Alive(self: Self)
      reads this
    {
      match self
      case Submitter(c) => c < |calls|
      case Shutter(k) => k < |closers|
    }

    /** The other goroutines take the steps of the next gap that are possible. */
    method Interfere(self: Self, env: seq<seq<Step>>) returns (rest: seq<seq<Step>>)
      requires Valid() && Alive(self)
      modifies this
      ensures Valid() && Alive(self) && old(log) <= log && old(updates) <= updates
      ensures self.Submitter? ==> calls[self.c] == old(calls[self.c])
      ensures self.Shutter? ==> closers[self.k] == old(closers[self.k])
      ensures |old(calls)| <= |calls|
      ensures rest == Rest(env) && View() == Scheduled(old(View()), self, Gap(env))
    {
      hide CanRun, RunAll, ReachedBy, Init, Apply;
      if env == [] {
        return [];
      }
      rest := env[1..];
      for i := 0 to |env[0]|
        invariant View() == Scheduled(old(View()), self, env[0][..i])
        invariant Valid() && Alive(self) && old(log) <= log && |old(calls)| <= |calls|
        invariant old(updates) <= updates
        invariant self.Submitter? ==> calls[self.c] == old(calls[self.c])
        invariant self.Shutter? ==> closers[self.k] == old(closers[self.k])
      {
        var step := env[0][i];
        assert env[0][..i + 1][..i] == env[0][..i];
        if Enabled(View(), step) && !Mine(self, step) {
          OthersLeave(View(), step, self);
          Execute(step);
        }
      }
      assert env[0][..|env[0]|] == env[0];
    }

    // ---------- Submit ----------

    /** What a call that has just ended says about the channel it leaves behind. */
    predicate Truthful(c: nat, outcome: Outcome)
      reads this
    {
      match outcome
      case Accepted => !queueClosed && taskQueue != [] && taskQueue[|taskQueue| - 1] == c
      case ErrPoolFull => !queueClosed && |taskQueue| >= queueSize
      case SendPanic => queueClosed
      case ErrPoolStopped => stopped
      case ErrNilTask => true
    }

    /** The compare-and-swap loop: leads to the last send unless the send after a
        successful swap settles the call. It goes round again only if somebody else has
        written workerNum since the load: every failed swap has a write of its own. */
    method Grow(c: nat, env: seq<seq<Step>>) returns (rest: seq<seq<Step>>)
      requires Valid() && c < |calls| && calls[c].pc == LoadWorkers
      modifies this
      ensures Valid() && old(log) <= log && |rest| <= |env|
      ensures c < |calls| && Paid(c) - old(Paid(c)) <= updates - old(updates)
      ensures calls[c].pc in {LastSend, Returned(Accepted), Returned(SendPanic)}
      ensures calls[c].pc.Returned? ==> Truthful(c, calls[c].pc.outcome)
    {
      hide CanRun, RunAll, ReachedBy, Init, Apply, Enabled;
      rest := env;
      while true
        invariant Valid() && old(log) <= log && |rest| <= |env|
        invariant c < |calls| && calls[c].pc == LoadWorkers
        invariant Paid(c) - old(Paid(c)) <= updates - old(updates)
        decreases |rest|
      {
        rest := Interfere(Submitter(c), rest);
        var current := LoadWorkerNum(c);
        if current >= maxWorkers {
          break;
        }
        rest := Interfere(Submitter(c), rest);
        StaleMeansWritten(View().cfg, log, View(), c);
        var swapped := CompareAndSwap(c, current);
        if swapped {
          rest := AfterSwap(c, rest);
          break;
        }
      }
    }

    method AfterSwap(c: nat, env: seq<seq<Step>>) returns (rest: seq<seq<Step>>)
      requires Valid() && c < |calls| && calls[c].pc == AddWg
      modifies this
      ensures Valid() && old(log) <= log && |rest| <= |env|
      ensures c < |calls| && Paid(c) == old(Paid(c)) && old(updates) <= updates
      ensures calls[c].pc in {LastSend, Returned(Accepted), Returned(SendPanic)}
      ensures calls[c].pc.Returned? ==> Truthful(c, calls[c].pc.outcome)
    {
      hide CanRun, RunAll, ReachedBy, Init, Valid, Apply, Enabled, View;
      rest := Interfere(Submitter(c), env);
      AddToGroup(c);
      rest := Interfere(Submitter(c), rest);
      GoTempWorker(c);
      rest := Interfere(Submitter(c), rest);
      var _ := TrySend(c, LastSend);
    }

    /** The three tiers: send, start a temporary worker and send, send once more. */
    method SendTask(c: nat, env: seq<seq<Step>>) returns (outcome: Outcome, rest: seq<seq<Step>>)
      requires Valid() && c < |calls| && calls[c].pc == FirstSend
      modifies this
      ensures Valid() && old(log) <= log && |rest| <= |env|
      ensures c < |calls| && calls[c].pc == Returned(outcome)
      ensures outcome in {Accepted, ErrPoolFull, SendPanic} && Truthful(c, outcome)
    {
      hide CanRun, RunAll, ReachedBy, Init, Valid, Apply, Enabled, View;
      rest := Interfere(Submitter(c), env);
      var pc := TrySend(c, LoadWorkers);
      if pc.Returned? {
        return pc.outcome, rest;
      }
      rest := Grow(c, rest);
      if calls[c].pc.Returned? {
        return calls[c].pc.outcome, rest;
      }
      rest := Interfere(Submitter(c), rest);
      pc := TrySend(c, Returned(ErrPoolFull));
      return pc.outcome, rest;
    }

    /** From the stopped check on. */
    method CheckAndSend(c: nat, env: seq<seq<Step>>) returns (outcome: Outcome, rest: seq<seq<Step>>)
      requires Valid() && c < |calls| && calls[c].pc == CheckStopped
      modifies this
      ensures Valid() && old(log) <= log && |rest| <= |env|
      ensures c < |calls| && calls[c].pc == Returned(outcome)
      ensures outcome != ErrNilTask && Truthful(c, outcome)
      ensures old(stopped) ==> outcome == ErrPoolStopped
    {
      hide CanRun, RunAll, ReachedBy, Init, Apply, Enabled;
      rest := Interfere(Submitter(c), env);
      StoppedForGood(old(View()), View(), old(log), log);
      var isStopped := LoadStopped(c);
      if isStopped {
        return ErrPoolStopped, rest;
      }
      rest := Interfere(Submitter(c), rest);
      AddSubmitted(c);
      outcome, rest := SendTask(c, rest);
    }

    /** Submit of pool/goroutine_pool.go. The outcome says what became of the task, and at
        the moment of the return the channel and the flag bear it out. A full pool is
        reported only after every send of the call was refused and the call has seen the
        worker limit or started a worker. */
    method Submit(nilTask: bool, env: seq<seq<Step>>)
      returns (c: nat, outcome: Outcome, rest: seq<seq<Step>>)
      requires Valid()
      modifies this
      ensures Valid() && old(log) <= log && |rest| <= |env|
      ensures old(|calls|) == c < |calls| && calls[c].pc == Returned(outcome)
      ensures outcome == ErrNilTask <==> nilTask
      ensures old(stopped) && !nilTask ==> outcome == ErrPoolStopped
      ensures outcome == Accepted <==> c in accepted
      ensures Truthful(c, outcome)
      ensures outcome == ErrPoolFull ==>
                calls[c].refused == 2 + calls[c].grew && (calls[c].grew == 1 || calls[c].atLimit)
    {
      hide CanRun, RunAll, ReachedBy, Init, Apply, Enabled;
      c := BeginCall(nilTask);
      if nilTask {
        outcome, rest := ErrNilTask, env;
      } else {
        outcome, rest := CheckAndSend(c, env);
      }
      AcceptedMeansQueued(View().cfg, log, View(), c);
      if outcome == ErrPoolFull {
        RejectionIsEarned(View().cfg, log, View(), c);
      }
    }

    /** SubmitWithRetry of pool/goroutine_pool.go; `mine` are the Submit calls it made. */
    method SubmitWithRetry(nilTask: bool, retryTimes: int, env: seq<seq<Step>>)
      returns (outcome: Outcome, mine: seq<nat>)
      requires Valid()
      modifies this
      ensures Valid() && old(log) <= log
      ensures 1 <= |mine| <= (if retryTimes < 0 then 0 else retryTimes) + 1
      ensures forall i :: 0 <= i < |mine| ==> old(|calls|) <= mine[i] < |calls|
      ensures forall i, j :: 0 <= i < j < |mine| ==> mine[i] < mine[j]
      ensures forall i :: 0 <= i < |mine| - 1 ==> calls[mine[i]].pc == Returned(ErrPoolFull) && mine[i] !in accepted
      ensures calls[mine[|mine| - 1]].pc == Returned(outcome) && Truthful(mine[|mine| - 1], outcome)
      ensures outcome == ErrNilTask <==> nilTask
      ensures old(stopped) && !nilTask ==> outcome == ErrPoolStopped
      ensures outcome == Accepted <==> mine[|mine| - 1] in accepted
      ensures outcome == ErrPoolFull ==> |mine| == (if retryTimes < 0 then 0 else retryTimes) + 1
    {
      hide CanRun, RunAll, ReachedBy, Init, AllFull, Scheduled, Apply, Enabled;
      var retries := if retryTimes < 0 then 0 else retryTimes;
      var rest := env;
      mine := [];
      var i := 0;
      NoneFull(View(), |calls|);
      while i <= retries
        invariant Valid() && old(log) <= log && i == |mine| <= retries
        invariant AllFull(View(), old(|calls|), mine) && old(|calls|) <= |calls|
        invariant (old(stopped) ==> stopped) && (i > 0 ==> !nilTask)
        decreases retries - i
      {
        ghost var before, logBefore, tried := View(), log, mine;
        var c: nat;
        c, outcome, rest := Submit(nilTask, rest);
        LaterPool(before, View(), logBefore, log, old(|calls|), mine);
        mine := mine + [c];
        if outcome != ErrPoolFull || i == retries {
          LastAttempt(View().cfg, log, View(), old(|calls|), tried, c);
          return;
        }
        OneMoreFull(View(), old(|calls|), tried, c);
        // the sleep between two attempts
        before, logBefore := View(), log;
        rest := Interfere(Submitter(c), rest);
        LaterPool(before, View(), logBefore, log, old(|calls|), mine);
        i := i + 1;
      }
    }

    /** The select of Close: blocks until the waiter has returned or the timer fires, which
        is when `env` is exhausted. */
    method AwaitDrain(k: nat, env: seq<seq<Step>>) returns (result: CloseOutcome)
      requires Valid() && k < |closers| && closers[k] == Await
      modifies this
      ensures Valid() && old(log) <= log && k < |closers| && closers[k] == Closed(result)
      ensures drained == Awaited(old(View()), Shutter(k), env).drained
      ensures result == if drained then CloseOk else CloseTimeout
    {
      hide CanRun, RunAll, ReachedBy, Init, Apply, Scheduled;
      var rest := env;
      while rest != [] && !drained
        invariant Valid() && old(log) <= log && k < |closers| && closers[k] == Await
        invariant Awaited(old(View()), Shutter(k), env) == Awaited(View(), Shutter(k), rest)
        decreases |rest|
      {
        rest := Interfere(Shutter(k), rest);
      }
      result := if drained then CloseOk else CloseTimeout;
      CloserAction(k, !drained);
    }

    /** The CompareAndSwap on stopped: the first call to Close goes on to close the channel,
        any other ends here. */
    method SwapFlag(k: nat) returns (won: bool)
      requires Valid() && k < |closers| && closers[k] == SwapStopped
      modifies this
      ensures Valid() && Took(StepCloser(k, false)) && won == !old(stopped)
      ensures k < |closers| && closers[k] == if won then CloseQueue else Closed(CloseErrStopped)
    {
      hide CanRun, RunAll, ReachedBy, Init;
      won := !stopped;
      CloserAction(k, false);
    }

    /** Close of pool/goroutine_pool.go. It is refused exactly if another call has won, and
        otherwise waits as long as `env` lasts: nil exactly if the waiter has returned. */
    method Close(env: seq<seq<Step>>) returns (k: nat, result: CloseOutcome)
      requires Valid()
      modifies this
      ensures Valid() && old(log) <= log
      ensures k == old(|closers|) < |closers| && closers[k] == Closed(result)
      ensures old(stopped) ==> result == CloseErrStopped
      ensures result == CloseErrStopped <==> exists l :: 0 <= l < |closers| && l != k && Won(closers[l])
      ensures result == CloseErrStopped
              <==> Scheduled(Apply(old(View()), BeginClose), Shutter(k), Gap(env)).stopped
      ensures result != CloseErrStopped ==>
                && (result == CloseOk <==> drained)
                && (drained <==> Awaited(ClosedAfter(old(View()), env), Shutter(k), Rest(Rest(env))).drained)
      ensures result == CloseOk ==>
                taskQueue == [] && forall c :: 0 <= c < |calls| ==>
                  multiset(finished)[c] == if calls[c].pc == Returned(Accepted) then 1 else 0
    {
      hide CanRun, RunAll, Init, Scheduled, Awaited;
      k := BeginClosing();
      var rest := Interfere(Shutter(k), env);
      StoppedForGood(old(View()), View(), old(log), log);
      var won := SwapFlag(k);
      if !won {
        result := CloseErrStopped;
      } else {
        rest := Interfere(Shutter(k), rest);
        CloserAction(k, false);
        result := AwaitDrain(k, rest);
      }
      OneWinner(View().cfg, log, View(), k);
      if result == CloseOk {
        GracefulDrain(View().cfg, log, View(), k);
      }
    }
  }

  /** The pool at the moment the winning call to Close begins to wait. */
  function ClosedAfter(s: Pool, env: seq<seq<Step>>): Pool {
    var k := |s.closers|;
    var swapped := Do(Scheduled(Apply(s, BeginClose), Shutter(k), Gap(env)), StepCloser(k, false));
    Do(Scheduled(swapped, Shutter(k), Gap(Rest(env))), StepCloser(k, false))
  }

  function Do(s: Pool, step: Step): Pool {
    if Enabled(s, step) then Apply(s, step) else s
  }

  /** A call to Close that has returned was refused exactly if another one has won. */
  lemma OneWinner(cfg: Config, log: seq<Step>, s: Pool, k: nat)
    requires ReachedBy(cfg, log, s) && k < |s.closers| && s.closers[k].Closed?
    requires s.closers[k].result == CloseErrStopped ==> s.stopped
    ensures s.closers[k].result == CloseErrStopped <==> exists l :: 0 <= l < |s.closers| && l != k && Won(s.closers[l])
  {
    ReachedInv(cfg, log, s);
  }

  // ---------- What a step does, spelled out ----------

  /** A send, case by case. */
  lemma SendEffect(s: Pool, c: nat, full: CallPc)
    requires c < |s.calls|
    requires (s.calls[c].pc == FirstSend && full == LoadWorkers)
          || (s.calls[c].pc == SecondSend && full == LastSend)
          || (s.calls[c].pc == LastSend && full == Returned(ErrPoolFull))
    ensures Enabled(s, StepCall(c))
    ensures Apply(s, StepCall(c))
         == if s.queueClosed then s.(calls := s.calls[c := s.calls[c].(pc := Returned(SendPanic))])
            else if |s.queue| < s.cfg.queueSize then
              s.(calls := s.calls[c := s.calls[c].(pc := Returned(Accepted))],
                 queue := s.queue + [c], accepted := s.accepted + [c])
            else s.(calls := s.calls[c := s.calls[c].(pc := full, refused := s.calls[c].refused + 1)])
  {
  }

  lemma SwapEffect(s: Pool, c: nat)
    requires c < |s.calls| && s.calls[c].pc.Cas? && s.calls[c].pc.seen == s.workerNum
    ensures Enabled(s, StepCall(c))
    ensures Apply(s, StepCall(c))
         == s.(calls := s.calls[c := s.calls[c].(pc := AddWg, grew := s.calls[c].grew + 1)],
               workerNum := s.workerNum + 1, updates := s.updates + 1)
  {
  }

  lemma TakeEffect(s: Pool, w: nat)
    requires w < |s.workers| && s.workers[w].pc.Receive? && s.queue != []
    ensures Enabled(s, StepWorker(w, Proceed))
    ensures Apply(s, StepWorker(w, Proceed))
         == s.(workers := s.workers[w := s.workers[w].(pc := Run(s.queue[0]))],
               taken := s.taken + [s.queue[0]], queue := s.queue[1..])
  {
    assert s.queue[..1] == [s.queue[0]];
  }

  lemma CountEffect(s: Pool, w: nat)
    requires w < |s.workers| && s.workers[w].pc.Count?
    ensures Enabled(s, StepWorker(w, Proceed))
    ensures Apply(s, StepWorker(w, Proceed))
         == s.(workers := s.workers[w := s.workers[w].(pc :=
                 if s.workers[w].pc.panicked then CountPanic else Receive)],
               totalCompleted := s.totalCompleted + 1, finished := s.finished + [s.workers[w].pc.task])
  {
  }

  /** The idle timer makes a temporary worker leave, whatever the channel holds. */
  lemma TimerEffect(s: Pool, w: nat)
    requires w < |s.workers| && s.workers[w].pc.Receive?
    ensures Enabled(s, StepWorker(w, TimerFires)) <==> s.workers[w].temp
    ensures s.workers[w].temp ==>
              Apply(s, StepWorker(w, TimerFires)) == s.(workers := s.workers[w := s.workers[w].(pc := Leave)])
  {
  }

  /** Close may always time out, and may return nil exactly if the waiter has returned. */
  lemma AwaitEffect(s: Pool, k: nat)
    requires k < |s.closers| && s.closers[k].Await?
    ensures Enabled(s, StepCloser(k, true))
    ensures Enabled(s, StepCloser(k, false)) <==> s.drained
    ensures Apply(s, StepCloser(k, true)) == s.(closers := s.closers[k := Closed(CloseTimeout)])
    ensures s.drained ==> Apply(s, StepCloser(k, false)) == s.(closers := s.closers[k := Closed(CloseOk)])
  {
  }

  /** A task ends, and the worker knows whether it panicked. */
  lemma RunEffect(s: Pool, w: nat, panics: bool)
    requires w < |s.workers| && s.workers[w].pc.Run?
    ensures var choice := if panics then TaskPanics else Proceed;
            && Enabled(s, StepWorker(w, choice))
            && Apply(s, StepWorker(w, choice))
               == s.(workers := s.workers[w := s.workers[w].(pc := Count(s.workers[w].pc.task, panics))])
  {
  }

  lemma LeaveEffect(s: Pool, w: nat)
    requires w < |s.workers| && s.workers[w].pc.Leave?
    ensures Enabled(s, StepWorker(w, Proceed))
    ensures Apply(s, StepWorker(w, Proceed))
         == s.(workers := s.workers[w := s.workers[w].(pc := DoneWg)],
               workerNum := s.workerNum - 1, updates := s.updates + 1)
  {
  }

  /** A step of another goroutine does not move this one. */
  lemma OthersLeave(s: Pool, step: Step, self: Self)
    requires Enabled(s, step) && !Mine(self, step)
    ensures s.updates <= Apply(s, step).updates && |s.calls| <= |Apply(s, step).calls|
    ensures match self
            case Submitter(c) => c < |s.calls| ==> Apply(s, step).calls[c] == s.calls[c]
            case Shutter(k) =>
              k < |s.closers| ==> k < |Apply(s, step).closers| && Apply(s, step).closers[k] == s.closers[k]
  {
    hide CallNext, WorkerNext;
    match step
    case StepCall(c) => CallLeaves(s, c);
    case StepWorker(w, choice) => WorkerLeaves(s, w, choice);
    case _ =>
  }

  lemma CallLeaves(s: Pool, c: nat)
    requires c < |s.calls| && !s.calls[c].pc.Returned?
    ensures s.updates <= CallNext(s, c).updates && CallNext(s, c).closers == s.closers
    ensures |CallNext(s, c).calls| == |s.calls|
    ensures forall d :: 0 <= d < |s.calls| && d != c ==> CallNext(s, c).calls[d] == s.calls[d]
  {
  }

  lemma WorkerLeaves(s: Pool, w: nat, choice: Choice)
    requires WorkerEnabled(s, w, choice)
    ensures s.updates <= WorkerNext(s, w, choice).updates
    ensures WorkerNext(s, w, choice).calls == s.calls && WorkerNext(s, w, choice).closers == s.closers
  {
  }

  // ---------- What a longer run keeps ----------

  lemma {:induction false} SplitRun(s: Pool, first: seq<Step>, second: seq<Step>)
    requires CanRun(s, first + second)
    ensures CanRun(s, first) && CanRun(RunAll(s, first), second)
    ensures RunAll(s, first + second) == RunAll(RunAll(s, first), second)
    decreases |first|
  {
    if first == [] {
      assert first + second == second;
    } else {
      assert (first + second)[1..] == first[1..] + second;
      SplitRun(Apply(s, first[0]), first[1..], second);
    }
  }

  lemma AcceptedMeansQueued(cfg: Config, log: seq<Step>, s: Pool, c: nat)
    requires ReachedBy(cfg, log, s) && c < |s.calls|
    ensures s.calls[c].pc == Returned(Accepted) <==> c in s.accepted
  {
    ReachedInv(cfg, log, s);
  }

  /** A call whose loaded value is out of date was overtaken by a write to workerNum. */
  lemma StaleMeansWritten(cfg: Config, log: seq<Step>, s: Pool, c: nat)
    requires ReachedBy(cfg, log, s) && c < |s.calls| && s.calls[c].pc.Cas?
    ensures s.calls[c].pc.seen != s.workerNum ==> s.calls[c].pc.at < s.updates
  {
    ReachedInv(cfg, log, s);
    assert Climbing(s, s.calls[c]);
  }

  lemma NoneAccepted(cfg: Config, log: seq<Step>, s: Pool, mine: seq<nat>)
    requires ReachedBy(cfg, log, s)
    requires forall i :: 0 <= i < |mine| ==> mine[i] < |s.calls| && s.calls[mine[i]].pc == Returned(ErrPoolFull)
    ensures forall i :: 0 <= i < |mine| ==> mine[i] !in s.accepted
  {
    ReachedInv(cfg, log, s);
  }

  /** The Submit calls `mine` are later than `from`, one after the other, and all were turned
      down by a full pool. */
  predicate AllFull(s: Pool, from: nat, mine: seq<nat>) {
    && (forall j :: 0 <= j < |mine| ==>
          from <= mine[j] < |s.calls| && s.calls[mine[j]].pc == Returned(ErrPoolFull))
    && (forall j, l :: 0 <= j < l < |mine| ==> mine[j] < mine[l])
  }

  lemma NoneFull(s: Pool, from: nat)
    ensures AllFull(s, from, [])
  {
  }

  lemma LaterPool(s: Pool, s': Pool, log: seq<Step>, log': seq<Step>, from: nat, mine: seq<nat>)
    requires ReachedBy(s.cfg, log, s) && ReachedBy(s.cfg, log', s') && log <= log'
    requires AllFull(s, from, mine)
    ensures AllFull(s', from, mine) && (s.stopped ==> s'.stopped)
    ensures forall j :: 0 <= j < |mine| ==> mine[j] < |s.calls|
  {
    StaysReturned(s, s', log, log');
    StoppedForGood(s, s', log, log');
  }

  lemma OneMoreFull(s: Pool, from: nat, mine: seq<nat>, c: nat)
    requires AllFull(s, from, mine) && from <= c < |s.calls| && s.calls[c].pc == Returned(ErrPoolFull)
    requires forall j :: 0 <= j < |mine| ==> mine[j] < c
    ensures AllFull(s, from, mine + [c])
  {
  }

  lemma LastAttempt(cfg: Config, log: seq<Step>, s: Pool, from: nat, mine: seq<nat>, c: nat)
    requires ReachedBy(cfg, log, s) && AllFull(s, from, mine) && from <= c
    requires forall j :: 0 <= j < |mine| ==> mine[j] < c
    ensures forall j :: 0 <= j < |mine| ==>
              from <= mine[j] < |s.calls| && s.calls[mine[j]].pc == Returned(ErrPoolFull) && mine[j] !in s.accepted
    ensures forall j, l :: 0 <= j < l < |mine + [c]| ==> (mine + [c])[j] < (mine + [c])[l]
  {
    NoneAccepted(cfg, log, s, mine);
  }

  lemma {:induction false} StoppedStays(s: Pool, steps: seq<Step>)
    requires s.stopped && CanRun(s, steps)
    ensures RunAll(s, steps).stopped
    decreases |steps|
  {
    if steps != [] {
      StoppedStays(Apply(s, steps[0]), steps[1..]);
    }
  }

  lemma StoppedForGood(s: Pool, s': Pool, log: seq<Step>, log': seq<Step>)
    requires ReachedBy(s.cfg, log, s) && ReachedBy(s.cfg, log', s') && log <= log'
    ensures s.stopped ==> s'.stopped
  {
    assert log' == log + log'[|log|..];
    SplitRun(Init(s.cfg), log, log'[|log|..]);
    if s.stopped {
      StoppedStays(s, log'[|log|..]);
    }
  }

  lemma StaysReturned(s: Pool, s': Pool, log: seq<Step>, log': seq<Step>)
    requires ReachedBy(s.cfg, log, s) && ReachedBy(s.cfg, log', s') && log <= log'
    ensures forall c :: 0 <= c < |s.calls| && s.calls[c].pc.Returned? ==>
              c < |s'.calls| && s'.calls[c] == s.calls[c]
  {
    assert log' == log + log'[|log|..];
    SplitRun(Init(s.cfg), log, log'[|log|..]);
    forall c | 0 <= c < |s.calls| && s.calls[c].pc.Returned?
      ensures c < |s'.calls| && s'.calls[c] == s.calls[c]
    {
      ReturnedForGood(s, log'[|log|..], c);
    }
  }
}
