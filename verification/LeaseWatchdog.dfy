/** Timeliness in terms of what the watchdog sends. */
module LeaseWatchdog {
  import opened LeaseModel
  import opened LeaseTheorems
  import opened Wrappers

  /** A step in which the server executes a SETNX or a renewal of the nonce, whatever the
      answer. */
  predicate Executes(s: World, step: Step, n: nat)
    requires Enabled(s, step)
  {
    CommandOf(s, step) == Some(SetNx(n)) || CommandOf(s, step) == Some(RenewIfOwner(n))
  }

  /** When the last of these was executed. */
  ghost function LastExecuted(expire: int, steps: seq<Step>, n: nat): Option<int>
    requires CanRun(expire, steps)
    decreases |steps|
  {
    if steps == [] then None
    else
      var front, step := steps[..|steps| - 1], steps[|steps| - 1];
      if Executes(After(expire, front), step, n) then Some(After(expire, front).now)
      else LastExecuted(expire, front, n)
  }

  /** From its SETNX to its release, less than expire passes between one execution for the
      nonce and the next, or the end of the run. */
  ghost predicate Watched(expire: int, steps: seq<Step>, n: nat)
    requires CanRun(expire, steps)
    decreases |steps|
  {
    && (steps == [] || Watched(expire, steps[..|steps| - 1], n))
    && (var s := After(expire, steps);
        n in s.touched && n !in s.released ==>
          LastExecuted(expire, steps, n).Some? && s.now < LastExecuted(expire, steps, n).value + expire)
  }

  /** While the nonce owns the key, every execution for it succeeds and moves the deadline. */
  lemma ExecutionTouches(s: World, step: Step, n: nat)
    requires Inv(s) && Enabled(s, step)
    requires n in s.touched && n !in s.released ==> OwnedBy(s.key, n)
    ensures var s' := Apply(s, step);
            && (n in s'.touched && n !in s'.released ==>
                  if Executes(s, step, n) then s'.touched[n] == s.now
                  else n in s.touched && s'.touched[n] == s.touched[n])
            && (n in s'.touched && n !in s'.released && n in s.touched ==> n !in s.released)
  {
    if step.StepCaller? {
      assert HandleInv(s, step.h, s.handles[step.h]);
    }
  }

  lemma {:induction false} LastIsTouched(expire: int, steps: seq<Step>, n: nat)
    requires 0 < expire && CanRun(expire, steps) && NoLoss(steps)
    requires Watched(expire, steps, n) || Timely(expire, steps, n)
    ensures Timely(expire, steps, n)
    ensures var s := After(expire, steps);
            n in s.touched && n !in s.released ==> LastExecuted(expire, steps, n) == Some(s.touched[n])
  {
    if steps == [] {
      assert At(expire, steps, 0) == Init(expire) by {
        AtStart(expire, steps);
      }
    } else {
      var front, step := steps[..|steps| - 1], steps[|steps| - 1];
      var s := After(expire, front);
      if Timely(expire, steps, n) {
        TimelyFront(expire, steps, n);
      }
      LastIsTouched(expire, front, n);
      InvRun(expire, front);
      InvRun(expire, steps);
      OwnsExactlyWhenTimely(expire, front, n);
      ExecutionTouches(s, step, n);
      if Watched(expire, steps, n) {
        TimelyLonger(expire, steps, n);
      }
    }
  }

  lemma TimelyFront(expire: int, steps: seq<Step>, n: nat)
    requires CanRun(expire, steps) && steps != [] && Timely(expire, steps, n)
    ensures Timely(expire, steps[..|steps| - 1], n)
  {
    var front := steps[..|steps| - 1];
    forall k | 0 <= k <= |front| ensures InTime(At(expire, front, k), n) {
      assert front[..k] == steps[..k];
      assert InTime(At(expire, steps, k), n);
    }
  }

  lemma TimelyLonger(expire: int, steps: seq<Step>, n: nat)
    requires CanRun(expire, steps) && steps != [] && Timely(expire, steps[..|steps| - 1], n)
    requires InTime(After(expire, steps), n)
    ensures Timely(expire, steps, n)
  {
    var front := steps[..|steps| - 1];
    forall k | 0 <= k <= |steps| ensures InTime(At(expire, steps, k), n) {
      if k < |steps| {
        assert front[..k] == steps[..k];
        assert InTime(At(expire, front, k), n);
      } else {
        assert steps[..k] == steps;
      }
    }
  }

  lemma {:induction false} TimelyIsWatched(expire: int, steps: seq<Step>, n: nat)
    requires 0 < expire && CanRun(expire, steps) && NoLoss(steps) && Timely(expire, steps, n)
    ensures Watched(expire, steps, n)
  {
    LastIsTouched(expire, steps, n);
    assert InTime(After(expire, steps), n) && After(expire, steps).expire == expire by {
      assert steps[..|steps|] == steps;
      assert InTime(At(expire, steps, |steps|), n);
      InvRun(expire, steps);
    }
    if steps != [] {
      TimelyFront(expire, steps, n);
      TimelyIsWatched(expire, steps[..|steps| - 1], n);
    }
  }

  /** The watchdog does its duty exactly when it keeps sending: a nonce is timely if and only
      if less than expire passes between the executions of its SETNX and its renewals. */
  lemma WatchedExactly(expire: int, steps: seq<Step>, n: nat)
    requires 0 < expire && CanRun(expire, steps) && NoLoss(steps)
    ensures Watched(expire, steps, n) <==> Timely(expire, steps, n)
  {
    if Watched(expire, steps, n) {
      LastIsTouched(expire, steps, n);
    }
    if Timely(expire, steps, n) {
      TimelyIsWatched(expire, steps, n);
    }
  }

  /** So two handles whose watchdogs do their duty never both hold the lock. */
  lemma WatchedExclusion(expire: int, steps: seq<Step>, g: nat, h: nat)
    requires 0 < expire && CanRun(expire, steps) && NoLoss(steps)
    requires g < |After(expire, steps).handles| && After(expire, steps).handles[g].holds.Some?
    requires h < |After(expire, steps).handles| && After(expire, steps).handles[h].holds.Some?
    requires Watched(expire, steps, After(expire, steps).handles[g].holds.value)
    requires Watched(expire, steps, After(expire, steps).handles[h].holds.value)
    ensures g == h
  {
    WatchedExactly(expire, steps, After(expire, steps).handles[g].holds.value);
    WatchedExactly(expire, steps, After(expire, steps).handles[h].holds.value);
    TimedMutualExclusion(expire, steps, g, h);
  }
}
