/** The worker limit that NewPool is asked for, and the one that a pool reaches. */
module PoolLimit {
  import opened PoolModel
  import opened PoolInvariant
  import opened PoolTheorems

  predicate Open(s: Pool) {
    !s.stopped && !s.queueClosed
  }

  /** A Submit call as far as its first send, with nothing in between. */
  lemma ReachSend(cfg: Config, steps: seq<Step>, s: Pool) returns (longer: seq<Step>, s': Pool)
    requires ReachedBy(cfg, steps, s) && Open(s)
    ensures ReachedBy(cfg, longer, s')
    ensures s' == s.(calls := s.calls + [NewCall(FirstSend, s.updates)], totalSubmitted := s.totalSubmitted + 1)
  {
    hide ReachedBy;
    var c := |s.calls|;
    longer, s' := Extend(cfg, steps, s, BeginSubmit(false));
    longer, s' := Extend(cfg, longer, s', StepCall(c));
    assert s' == s.(calls := s.calls + [NewCall(CountSubmit, s.updates)]);
    longer, s' := Extend(cfg, longer, s', StepCall(c));
  }

  /** It fills a free place of the channel. */
  lemma OneMoreTask(cfg: Config, steps: seq<Step>, s: Pool) returns (longer: seq<Step>, s': Pool)
    requires ReachedBy(cfg, steps, s) && Open(s) && s.cfg == cfg && |s.queue| < cfg.queueSize
    ensures ReachedBy(cfg, longer, s') && Open(s') && s'.cfg == cfg
    ensures |s'.queue| == |s.queue| + 1 && s'.workerNum == s.workerNum
  {
    hide ReachedBy;
    longer, s' := ReachSend(cfg, steps, s);
    longer, s' := Extend(cfg, longer, s', StepCall(|s.calls|));
  }

  /** On a full channel it takes a place for a temporary worker. */
  lemma OneMoreWorker(cfg: Config, steps: seq<Step>, s: Pool) returns (longer: seq<Step>, s': Pool)
    requires ReachedBy(cfg, steps, s) && Open(s) && s.cfg == cfg && |s.queue| == cfg.queueSize
    requires s.workerNum < cfg.maxWorkers
    ensures ReachedBy(cfg, longer, s') && Open(s') && s'.cfg == cfg
    ensures s'.queue == s.queue && s'.workerNum == s.workerNum + 1
  {
    hide ReachedBy;
    var c := |s.calls|;
    longer, s' := ReachSend(cfg, steps, s);
    longer, s' := Extend(cfg, longer, s', StepCall(c));
    longer, s' := Extend(cfg, longer, s', StepCall(c));
    longer, s' := Extend(cfg, longer, s', StepCall(c));
  }

  lemma {:induction false} FillQueue(cfg: Config, n: nat) returns (steps: seq<Step>, s: Pool)
    requires ValidConfig(cfg) && n <= cfg.queueSize
    ensures ReachedBy(cfg, steps, s) && Open(s) && s.cfg == cfg
    ensures |s.queue| == n && s.workerNum == cfg.coreWorkers
  {
    if n == 0 {
      steps, s := [], Init(cfg);
    } else {
      hide ReachedBy;
      steps, s := FillQueue(cfg, n - 1);
      steps, s := OneMoreTask(cfg, steps, s);
    }
  }

  lemma {:induction false} ReachWorkers(cfg: Config, n: nat) returns (steps: seq<Step>, s: Pool)
    requires ValidConfig(cfg) && cfg.coreWorkers <= n <= cfg.maxWorkers
    ensures ReachedBy(cfg, steps, s) && Open(s) && s.cfg == cfg
    ensures |s.queue| == cfg.queueSize && s.workerNum == n
    decreases n
  {
    hide ReachedBy;
    if n == cfg.coreWorkers {
      steps, s := FillQueue(cfg, cfg.queueSize);
    } else {
      steps, s := ReachWorkers(cfg, n - 1);
      steps, s := OneMoreWorker(cfg, steps, s);
    }
  }

  ghost predicate CanReach(cfg: Config, workers: int) {
    exists steps, s :: ReachedBy(cfg, steps, s) && s.workerNum == workers
  }

  /** A pool never has more workers than the limit it was asked to have, and it can have as
      many exactly when the limit survives the conversion to int32. */
  lemma LimitReachedExactly(coreWorkers: nat, maxWorkers: nat, queueSize: nat)
    requires 0 < coreWorkers <= maxWorkers && 0 < queueSize && coreWorkers < 0x8000_0000
    ensures var cfg := Config(coreWorkers, StoredInt32(maxWorkers), queueSize);
            && (forall steps, s :: ReachedBy(cfg, steps, s) ==> s.workerNum <= maxWorkers)
            && (CanReach(cfg, maxWorkers) <==> maxWorkers < 0x8000_0000)
            && (StoredInt32(maxWorkers) == maxWorkers <==> maxWorkers < 0x8000_0000)
            && (maxWorkers < 0x8000_0000 ==> Ceiling(cfg) == maxWorkers)
  {
    hide ReachedBy;
    var cfg := Config(coreWorkers, StoredInt32(maxWorkers), queueSize);
    forall steps, s | ReachedBy(cfg, steps, s) ensures s.workerNum <= Ceiling(cfg) {
      WorkerBounds(cfg, steps, s);
    }
    if maxWorkers < 0x8000_0000 {
      var steps, s := ReachWorkers(cfg, maxWorkers);
    }
  }
}
