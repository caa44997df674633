/** The goroutine pool as a step system. Every atomic action of Submit, of a worker and
    of Close is one step of its own, so any interleaving of any number of goroutines is a
    sequence of steps. */
module PoolModel {

  /** maxWorkers is what the int32 field stores, see StoredInt32. */
  datatype Config = Config(coreWorkers: nat, maxWorkers: int, queueSize: nat)

  /** Go's conversion of an int to int32. */
  function StoredInt32(n: int): int {
    var low := n % 0x1_0000_0000;
    if low < 0x8000_0000 then low else low - 0x1_0000_0000
  }

  /** SendPanic: the call died sending on the closed channel, so it returned no error
      and its task was not accepted. */
  datatype Outcome = Accepted | ErrPoolFull | ErrPoolStopped | ErrNilTask | SendPanic

  /** The atomic action a Submit call performs next. `at` is the history counter
      `updates` at the moment workerNum was loaded. */
  datatype CallPc =
    | CheckStopped
    | CountSubmit
    | FirstSend
    | LoadWorkers
    | Cas(seen: int, at: nat)
    | AddWg
    | Spawn
    | SecondSend
    | LastSend
    | Returned(outcome: Outcome)

  /** History kept beside the program counter: `updates` when the call began, how many of
      its compare-and-swaps failed and how many succeeded, how many of its sends found the
      channel full, and whether it has seen workerNum at the limit. */
  datatype Call = Call(pc: CallPc, entry: nat, failedCas: nat, grew: nat, refused: nat, atLimit: bool)

  function NewCall(pc: CallPc, entry: nat): Call {
    Call(pc, entry, 0, 0, 0, false)
  }

  datatype WorkerPc =
    | Receive
    | Run(task: nat)
    | Count(task: nat, panicked: bool)
    | CountPanic
    | Leave
    | DoneWg
    | Gone

  datatype Worker = Worker(temp: bool, pc: WorkerPc)

  datatype CloseOutcome = CloseOk | CloseTimeout | CloseErrStopped

  datatype ClosePc = SwapStopped | CloseQueue | Await | Closed(result: CloseOutcome)

  /** A task is named by the Submit call that created its closure, and a call, a worker
      and a closer by its position in the sequence of those ever started.
      The last four fields are history: the order in which tasks were accepted, were taken
      from the channel and were counted as completed, and the number of writes to
      workerNum since the pool was built. */
  datatype Pool = Pool(
    cfg: Config,
    queue: seq<nat>,
    queueClosed: bool,
    workerNum: int,
    wg: int,
    stopped: bool,
    totalSubmitted: nat,
    totalCompleted: nat,
    totalPanic: nat,
    drained: bool,
    calls: seq<Call>,
    workers: seq<Worker>,
    closers: seq<ClosePc>,
    accepted: seq<nat>,
    taken: seq<nat>,
    finished: seq<nat>,
    updates: nat)

  /** What a worker does when it has a choice: go on, let the idle timer fire, or have its
      task panic. A task whose context is done returns at once, which is `Proceed`. */
  datatype Choice = Proceed | TimerFires | TaskPanics

  datatype Step =
    | BeginSubmit(nilTask: bool)
    | BeginClose
    | StepCall(c: nat)
    | StepWorker(w: nat, choice: Choice)
    | WaitReturns
    | StepCloser(k: nat, timer: bool)

  /** The pool NewPool returns. */
  function Init(cfg: Config): Pool {
    Pool(cfg, [], false, cfg.coreWorkers, cfg.coreWorkers, false, 0, 0, 0, false,
         [], seq(cfg.coreWorkers, _ => Worker(false, Receive)), [], [], [], [], 0)
  }

  /** Where a non-blocking send leads: a closed channel panics whether or not it is full. */
  function AfterSend(s: Pool, call: Call, full: CallPc): Call {
    if s.queueClosed then call.(pc := Returned(SendPanic))
    else if |s.queue| < s.cfg.queueSize then call.(pc := Returned(Accepted))
    else call.(pc := full, refused := call.refused + 1)
  }

  /** The control flow of Submit: the call's entry after its next atomic action. */
  function AfterCall(s: Pool, call: Call): Call
    requires !call.pc.Returned?
  {
    match call.pc
    case CheckStopped => call.(pc := if s.stopped then Returned(ErrPoolStopped) else CountSubmit)
    case CountSubmit => call.(pc := FirstSend)
    case FirstSend => AfterSend(s, call, LoadWorkers)
    case LoadWorkers =>
      if s.workerNum >= s.cfg.maxWorkers then call.(pc := LastSend, atLimit := true)
      else call.(pc := Cas(s.workerNum, s.updates))
    case Cas(seen, _) =>
      if s.workerNum == seen then call.(pc := AddWg, grew := call.grew + 1)
      else call.(pc := LoadWorkers, failedCas := call.failedCas + 1)
    case AddWg => call.(pc := Spawn)
    case Spawn => call.(pc := SecondSend)
    case SecondSend => AfterSend(s, call, LastSend)
    case LastSend => AfterSend(s, call, Returned(ErrPoolFull))
  }

  /** The effect of that action on what the goroutines share. */
  function CallNext(s: Pool, c: nat): Pool
    requires c < |s.calls| && !s.calls[c].pc.Returned?
  {
    var was := s.calls[c];
    var call := AfterCall(s, was);
    var sent := if call.pc == Returned(Accepted) then [c] else [];
    var swapped := call.grew - was.grew;
    s.(calls := s.calls[c := call],
       queue := s.queue + sent,
       accepted := s.accepted + sent,
       totalSubmitted := s.totalSubmitted + (if was.pc.CountSubmit? then 1 else 0),
       workerNum := s.workerNum + swapped,
       updates := s.updates + swapped,
       wg := s.wg + (if was.pc.AddWg? then 1 else 0),
       workers := s.workers + (if was.pc.Spawn? then [Worker(true, Receive)] else []))
  }

  predicate WorkerEnabled(s: Pool, w: nat, choice: Choice) {
    && w < |s.workers|
    && match s.workers[w].pc {
      case Receive =>
        if choice == TimerFires then s.workers[w].temp
        else choice == Proceed && (s.queue != [] || s.queueClosed)
      case Run(_) => choice != TimerFires
      case Gone => false
      case _ => choice == Proceed
    }
  }

  /** The control flow of coreWorker, tempWorker and runTask. */
  function AfterWork(s: Pool, w: nat, choice: Choice): WorkerPc
    requires WorkerEnabled(s, w, choice)
  {
    match s.workers[w].pc
    case Receive => if choice == TimerFires || s.queue == [] then Leave else Run(s.queue[0])
    case Run(task) => Count(task, choice == TaskPanics)
    case Count(_, panicked) => if panicked then CountPanic else Receive
    case CountPanic => Receive
    case Leave => DoneWg
    case DoneWg => Gone
  }

  function WorkerNext(s: Pool, w: nat, choice: Choice): Pool
    requires WorkerEnabled(s, w, choice)
  {
    var was := s.workers[w].pc;
    var pc := AfterWork(s, w, choice);
    var took := if pc.Run? then 1 else 0;
    s.(workers := s.workers[w := s.workers[w].(pc := pc)],
       taken := s.taken + s.queue[..took],
       queue := s.queue[took..],
       finished := s.finished + (if was.Count? then [was.task] else []),
       totalCompleted := s.totalCompleted + (if was.Count? then 1 else 0),
       totalPanic := s.totalPanic + (if was.CountPanic? then 1 else 0),
       workerNum := s.workerNum - (if was.Leave? then 1 else 0),
       updates := s.updates + (if was.Leave? then 1 else 0),
       wg := s.wg - (if was.DoneWg? then 1 else 0))
  }

  predicate CloserEnabled(s: Pool, k: nat, timer: bool) {
    && k < |s.closers|
    && match s.closers[k] {
      case Await => timer || s.drained
      case Closed(_) => false
      case _ => !timer
    }
  }

  function CloserNext(s: Pool, k: nat, timer: bool): Pool
    requires CloserEnabled(s, k, timer)
  {
    match s.closers[k]
    case SwapStopped =>
      s.(stopped := true,
         closers := s.closers[k := if s.stopped then Closed(CloseErrStopped) else CloseQueue])
    case CloseQueue => s.(queueClosed := true, closers := s.closers[k := Await])
    case Await => s.(closers := s.closers[k := Closed(if timer then CloseTimeout else CloseOk)])
  }

  predicate Enabled(s: Pool, step: Step) {
    match step
    case BeginSubmit(_) => true
    case BeginClose => true
    case StepCall(c) => c < |s.calls| && !s.calls[c].pc.Returned?
    case StepWorker(w, choice) => WorkerEnabled(s, w, choice)
    // the goroutine of Close that waits for the group is started by the call that closed the channel
    case WaitReturns => s.queueClosed && s.wg == 0 && !s.drained
    case StepCloser(k, timer) => CloserEnabled(s, k, timer)
  }

  function Apply(s: Pool, step: Step): Pool
    requires Enabled(s, step)
  {
    match step
    case BeginSubmit(nilTask) =>
      s.(calls := s.calls + [NewCall(if nilTask then Returned(ErrNilTask) else CheckStopped, s.updates)])
    case BeginClose => s.(closers := s.closers + [SwapStopped])
    case StepCall(c) => CallNext(s, c)
    case StepWorker(w, choice) => WorkerNext(s, w, choice)
    case WaitReturns => s.(drained := true)
    case StepCloser(k, timer) => CloserNext(s, k, timer)
  }

  predicate CanRun(s: Pool, steps: seq<Step>)
    decreases |steps|
  {
    steps == [] || (Enabled(s, steps[0]) && CanRun(Apply(s, steps[0]), steps[1..]))
  }

  function RunAll(s: Pool, steps: seq<Step>): Pool
    requires CanRun(s, steps)
    decreases |steps|
  {
    if steps == [] then s else RunAll(Apply(s, steps[0]), steps[1..])
  }

  lemma {:induction false} RunConcat(s: Pool, first: seq<Step>, second: seq<Step>)
    requires CanRun(s, first) && CanRun(RunAll(s, first), second)
    ensures CanRun(s, first + second)
    ensures RunAll(s, first + second) == RunAll(RunAll(s, first), second)
    decreases |first|
  {
    if first == [] {
      assert first + second == second;
    } else {
      assert (first + second)[1..] == first[1..] + second;
      RunConcat(Apply(s, first[0]), first[1..], second);
    }
  }
}
