/** The panic counter, to the unit. */
module PoolMetrics {
  import opened PoolModel
  import opened PoolInvariant
  import opened PoolTheorems
  import opened Sums

  /** The worker's task has panicked and is not in totalPanic yet. */
  function Flagged(worker: Worker): nat {
    if worker.pc.CountPanic? || (worker.pc.Count? && worker.pc.panicked) then 1 else 0
  }

  predicate IsPanic(step: Step) { step.StepWorker? && step.choice == TaskPanics }

  function Panics(steps: seq<Step>): nat {
    if steps == [] then 0 else (if IsPanic(steps[0]) then 1 else 0) + Panics(steps[1..])
  }

  lemma WorkerPanics(s: Pool, w: nat, choice: Choice)
    requires WorkerEnabled(s, w, choice)
    ensures var s' := WorkerNext(s, w, choice);
            s'.totalPanic + Sum(s'.workers, Flagged)
            == s.totalPanic + Sum(s.workers, Flagged) + if choice == TaskPanics then 1 else 0
  {
    hide Sum;
    var s' := WorkerNext(s, w, choice);
    assert s'.workers == s.workers[w := s'.workers[w]];
    SumUpdate(s.workers, w, s'.workers[w], Flagged);
  }

  lemma PanicStep(s: Pool, step: Step)
    requires Enabled(s, step)
    ensures var s' := Apply(s, step);
            s'.totalPanic + Sum(s'.workers, Flagged)
            == s.totalPanic + Sum(s.workers, Flagged) + if IsPanic(step) then 1 else 0
  {
    hide Sum;
    match step
    case StepWorker(w, choice) => WorkerPanics(s, w, choice);
    case StepCall(c) =>
      var hired := Worker(true, Receive);
      SumAppend(s.workers, hired, Flagged);
      assert Apply(s, step).workers == if s.calls[c].pc.Spawn? then s.workers + [hired] else s.workers;
    case _ =>
  }

  /** In every run from any state totalPanic, with the panics recovered but not yet counted,
      grows by exactly the number of tasks that panic. */
  lemma {:induction false} PanicsAreCounted(s: Pool, steps: seq<Step>)
    requires CanRun(s, steps)
    ensures RunAll(s, steps).totalPanic + Sum(RunAll(s, steps).workers, Flagged)
         == s.totalPanic + Sum(s.workers, Flagged) + Panics(steps)
    decreases |steps|
  {
    if steps != [] {
      PanicStep(s, steps[0]);
      PanicsAreCounted(Apply(s, steps[0]), steps[1..]);
    }
  }

  /** So a pool of which no worker is between a panic and its count has counted exactly the
      tasks that panicked. */
  lemma PanicsAtRest(cfg: Config, steps: seq<Step>, s: Pool)
    requires ReachedBy(cfg, steps, s)
    requires forall w :: 0 <= w < |s.workers| ==> Flagged(s.workers[w]) == 0
    ensures s.totalPanic == Panics(steps)
  {
    PanicsAreCounted(Init(cfg), steps);
    SumAtMost(Init(cfg).workers, Flagged, 0);
    SumAtMost(s.workers, Flagged, 0);
  }
}
