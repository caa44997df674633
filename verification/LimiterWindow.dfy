/** How many calls of one IP are admitted in a window of time. */
module LimiterWindow {
  import opened LimiterModel
  import opened LimiterTheorems

  /** Step k of the run, from state s, is an Allow for this IP that admits the call. */
  predicate Admits(s: Limiter, step: Step, ip: string)
    requires Enabled(s, step)
  {
    && step.StepCall? && s.calls[step.c].ip == ip && s.calls[step.c].pc.TakeToken?
    && HasToken(s.entries[s.calls[step.c].pc.entry].bucket, s.now)
  }

  lemma {:induction false} PrefixRuns(steps: seq<Step>, k: nat)
    requires CanRun(steps) && k <= |steps|
    ensures CanRun(steps[..k])
  {
    if k < |steps| {
      var front := steps[..|steps| - 1];
      assert front[..k] == steps[..k];
      PrefixRuns(front, k);
    } else {
      assert steps[..k] == steps;
    }
  }

  /** The number of admissions of an IP in the steps of a run from number i on. */
  ghost function Admissions(steps: seq<Step>, i: nat, ip: string): nat
    requires CanRun(steps) && i <= |steps|
    decreases |steps|
  {
    if |steps| == i then 0
    else
      var front := steps[..|steps| - 1];
      Admissions(front, i, ip) + if Admits(After(front), steps[|steps| - 1], ip) then 1 else 0
  }

  /** What the never-cleaned bucket of an IP holds. */
  function Level(s: Limiter, ip: string): int {
    Refill(PlainBucket(s, ip), s.now)
  }

  lemma LevelStep(s: Limiter, step: Step, ip: string)
    requires Inv(s) && Enabled(s, step)
    ensures var s' := Apply(s, step);
            && 0 <= Level(s, ip) <= BURST
            && Level(s', ip) + (if Admits(s, step, ip) then TOKEN else 0) <= Level(s, ip) + (s'.now - s.now)
  {
    assert ip in s.plain ==> GoodBucket(s.plain[ip], s.now);
    if step.StepCall? && s.calls[step.c].pc.TakeToken? {
      TakeAgrees(s, step.c);
    }
  }

  /** The time from step i to the end of the run. */
  ghost function Elapsed(steps: seq<Step>, i: nat): int
    requires CanRun(steps) && i <= |steps|
  {
    PrefixRuns(steps, i);
    After(steps).now - After(steps[..i]).now
  }

  lemma {:induction false} Balance(steps: seq<Step>, i: nat, ip: string)
    requires CanRun(steps) && Harmless(steps) && i <= |steps| && CanRun(steps[..i])
    ensures Admissions(steps, i, ip) * TOKEN + Level(After(steps), ip)
         <= Level(After(steps[..i]), ip) + Elapsed(steps, i)
    ensures 0 <= Level(After(steps), ip) <= BURST && 0 <= Level(After(steps[..i]), ip) <= BURST
    decreases |steps|
  {
    InvRun(steps);
    LevelStep(After(steps), Tick(0), ip);
    if |steps| == i {
      assert steps[..i] == steps;
    } else {
      var front := steps[..|steps| - 1];
      assert front[..i] == steps[..i];
      Balance(front, i, ip);
      InvRun(front);
      LevelStep(After(front), steps[|steps| - 1], ip);
    }
  }

  /** The window from step i on admits no more than the burst and what trickles in. */
  ghost predicate Bounded(steps: seq<Step>, i: nat, ip: string)
    requires CanRun(steps) && i <= |steps|
  {
    Admissions(steps, i, ip) * TOKEN <= BURST + Elapsed(steps, i)
  }

  /** In any window of time an IP is admitted at most 200 times and once more for every ten
      milliseconds, that is 200 + 100 * T times in T seconds, however many cleanup passes
      delete its entry and calls create it again. */
  lemma AdmissionBound(steps: seq<Step>, i: nat, ip: string)
    requires CanRun(steps) && Harmless(steps) && i <= |steps|
    ensures Bounded(steps, i, ip)
    ensures forall seconds: nat :: Elapsed(steps, i) <= seconds * SECOND ==>
              Admissions(steps, i, ip) <= 200 + 100 * seconds
  {
    PrefixRuns(steps, i);
    Balance(steps, i, ip);
  }
}
