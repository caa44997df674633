/** The watchdogs: who starts one, what it keeps alive, and when it falls silent. */
module LeaseRenewers {
  import opened LeaseModel
  import opened LeaseTheorems
  import opened Wrappers

  // ---------- One watchdog for each TryLock that returns true ----------

  predicate Wins(s: World, step: Step)
    requires Enabled(s, step)
  {
    step.StepCaller? && s.handles[step.h].pc.EndTryLock? && s.handles[step.h].pc.reply == Yes
  }

  /** The handles whose TryLock returned true, in the order of the returns. */
  ghost function Winners(expire: int, steps: seq<Step>): seq<nat>
    requires CanRun(expire, steps)
    decreases |steps|
  {
    if steps == [] then []
    else
      var front, step := steps[..|steps| - 1], steps[|steps| - 1];
      Winners(expire, front) + if Wins(After(expire, front), step) then [step.h] else []
  }

  lemma RenewersStep(s: World, step: Step)
    requires Enabled(s, step)
    ensures var s' := Apply(s, step);
            && |s'.renewers| == |s.renewers| + (if Wins(s, step) then 1 else 0)
            && (forall r :: 0 <= r < |s.renewers| ==> s'.renewers[r].h == s.renewers[r].h)
            && (Wins(s, step) ==> s'.renewers[|s.renewers|] == Renewer(step.h, Starting))
  {
  }

  /** renewLock is started once for every TryLock that returns true, on its handle, and
      never otherwise. */
  lemma {:induction false} OneRenewerPerLock(expire: int, steps: seq<Step>)
    requires CanRun(expire, steps)
    ensures var s := After(expire, steps);
            && |s.renewers| == |Winners(expire, steps)|
            && forall r :: 0 <= r < |s.renewers| ==> s.renewers[r].h == Winners(expire, steps)[r]
  {
    if steps != [] {
      var front := steps[..|steps| - 1];
      OneRenewerPerLock(expire, front);
      RenewersStep(After(expire, front), steps[|steps| - 1]);
    }
  }

  // ---------- A watchdog can keep the lock for ever ----------

  /** Steps of the watchdog r and of the clock, and of nobody else. */
  predicate Watches(steps: seq<Step>, r: nat) {
    forall i :: 0 <= i < |steps| ==>
      steps[i].Tick? || steps[i] == TickRenewer(r) || (steps[i].StepRenewer? && steps[i].r == r)
  }

  /** The watchdog r waits for its ticker on a handle that carries n and owns the key. */
  predicate OnDuty(s: World, r: nat, n: nat) {
    && r < |s.renewers| && s.renewers[r].h < |s.handles|
    && s.handles[s.renewers[r].h].nonce == Some(n) && s.handles[s.renewers[r].h].ctx.Some?
    && s.renewers[r].pc.Selecting?
    && OwnedBy(s.key, n) && s.now < s.key.deadline
  }

  /** A round of the watchdog moves the deadline. */
  lemma RenewOnce(expire: int, steps: seq<Step>, s: World, r: nat, n: nat) returns (longer: seq<Step>, s': World)
    requires CanRun(expire, steps) && s == After(expire, steps) && OnDuty(s, r, n) && 1 < s.expire
    ensures CanRun(expire, longer) && s' == After(expire, longer) && OnDuty(s', r, n)
    ensures longer == steps + [TickRenewer(r), StepRenewer(r, Answered), StepRenewer(r, Answered)]
    ensures s'.now == s.now && s'.expire == s.expire && s'.key == Held(n, s.now + s.expire)
  {
    hide CanRun, After;
    longer, s' := Extend(expire, steps, s, TickRenewer(r));
    assert s'.renewers[r].pc == SendRenew(n) && s'.key == s.key;
    longer, s' := Extend(expire, longer, s', StepRenewer(r, Answered));
    longer, s' := Extend(expire, longer, s', StepRenewer(r, Answered));
  }

  lemma {:induction false} KeepAlive(expire: int, steps: seq<Step>, s: World, r: nat, n: nat, d: nat)
    returns (longer: seq<Step>, s': World)
    requires CanRun(expire, steps) && s == After(expire, steps) && OnDuty(s, r, n) && 1 < s.expire
    ensures CanRun(expire, longer) && s' == After(expire, longer) && OnDuty(s', r, n)
    ensures steps <= longer && Watches(longer[|steps|..], r)
    ensures s'.now == s.now + d && s'.expire == s.expire
  {
    hide CanRun, After;
    if d == 0 {
      longer, s' := steps, s;
    } else {
      longer, s' := KeepAlive(expire, steps, s, r, n, d - 1);
      longer, s' := RenewOnce(expire, longer, s', r, n);
      longer, s' := Extend(expire, longer, s', Tick(1));
    }
  }

  /** The return of TryLock starts the watchdog, and its first step puts it on duty. */
  lemma StartDuty(expire: int, steps: seq<Step>, s: World, h: nat, n: nat)
    returns (longer: seq<Step>, s': World, r: nat)
    requires CanRun(expire, steps) && s == After(expire, steps)
    requires h < |s.handles| && s.handles[h].pc == EndTryLock(n, Yes)
    requires s.handles[h].nonce == Some(n) && s.handles[h].ctx.Some?
    requires OwnedBy(s.key, n) && s.now < s.key.deadline
    ensures CanRun(expire, longer) && s' == After(expire, longer) && OnDuty(s', r, n)
    ensures longer == steps + [StepCaller(h, Answered), StepRenewer(r, Answered)]
    ensures s'.now == s.now && s'.expire == s.expire
  {
    hide CanRun, After;
    r := |s.renewers|;
    longer, s' := Extend(expire, steps, s, StepCaller(h, Answered));
    assert s'.renewers == s.renewers + [Renewer(h, Starting)] && s'.key == s.key;
    assert s'.handles == s.handles[h := s'.handles[h]] && s'.handles[h].nonce == Some(n) && s'.handles[h].ctx.Some?;
    longer, s' := Extend(expire, longer, s', StepRenewer(r, Answered));
  }

  /** A TryLock about to return true leads to a lock that its watchdog can keep for any
      length of time, with no help from anybody: at the end the nonce still owns the key. */
  lemma WatchdogKeepsLock(expire: int, steps: seq<Step>, h: nat, n: nat, d: nat)
    returns (longer: seq<Step>, r: nat)
    requires 1 < expire && CanRun(expire, steps)
    requires h < |After(expire, steps).handles| && After(expire, steps).handles[h].pc == EndTryLock(n, Yes)
    requires OwnedBy(After(expire, steps).key, n)
    ensures CanRun(expire, longer) && steps + [StepCaller(h, Answered)] <= longer
    ensures Watches(longer[|steps| + 1..], r)
    ensures After(expire, longer).now == After(expire, steps).now + d
    ensures OwnedBy(After(expire, longer).key, n)
  {
    var s := After(expire, steps);
    InvRun(expire, steps);
    assert HandleInv(s, h, s.handles[h]);
    KeyIsLive(expire, steps);
    hide CanRun, After, Inv;
    var first, s';
    first, s', r := StartDuty(expire, steps, s, h, n);
    longer, s' := KeepAlive(expire, first, s', r, n, d);
    assert longer[|steps| + 1..] == [StepRenewer(r, Answered)] + longer[|first|..];
  }

  lemma KeyIsLive(expire: int, steps: seq<Step>)
    requires 0 < expire && CanRun(expire, steps)
    ensures After(expire, steps).key.Held? ==> After(expire, steps).now < After(expire, steps).key.deadline
  {
    InvRun(expire, steps);
  }

  // ---------- Falling silent ----------

  /** The watchdog has nothing more to send. */
  predicate Silent(pc: RenewPc) {
    pc.Exited? || (pc.EndRenew? && pc.reply != Yes)
  }

  predicate SendsFor(s: World, step: Step, r: nat)
    requires Enabled(s, step)
  {
    step.StepRenewer? && step.r == r && CommandOf(s, step).Some?
  }

  lemma {:induction false} SilentForGood(expire: int, steps: seq<Step>, i: nat, j: nat, r: nat)
    requires CanRun(expire, steps) && i <= j <= |steps|
    requires r < |At(expire, steps, i).renewers| && Silent(At(expire, steps, i).renewers[r].pc)
    ensures r < |At(expire, steps, j).renewers| && Silent(At(expire, steps, j).renewers[r].pc)
    ensures j < |steps| ==> Enabled(At(expire, steps, j), steps[j]) && !SendsFor(At(expire, steps, j), steps[j], r)
    decreases j - i
  {
    if i < j {
      AtNext(expire, steps, i);
      RenewersStep(At(expire, steps, i), steps[i]);
      SilentForGood(expire, steps, i + 1, j, r);
    } else if j < |steps| {
      AtNext(expire, steps, j);
    }
  }

  /** A watchdog that leaves its select because the context is done, or whose renewal is not
      answered by 1, sends no further command for the rest of the run. */
  lemma StopsForGood(expire: int, steps: seq<Step>, i: nat, j: nat, r: nat, fate: Fate)
    requires CanRun(expire, steps) && i < j < |steps| && steps[i] == StepRenewer(r, fate)
    requires r < |At(expire, steps, i).renewers|
    requires var s, pc := At(expire, steps, i), At(expire, steps, i).renewers[r].pc;
             pc.Selecting? || (pc.SendRenew? && ReplyTo(s, RenewIfOwner(pc.nonce), fate) != Yes)
    ensures Enabled(At(expire, steps, j), steps[j]) && !SendsFor(At(expire, steps, j), steps[j], r)
  {
    AtNext(expire, steps, i);
    SilentForGood(expire, steps, i + 1, j, r);
  }

  /** The cancel deferred by Unlock runs after the script and whatever its answer: when
      Unlock returns, the context is done and a watchdog waiting on it can leave. */
  lemma UnlockStopsWatchdog(s: World, h: nat, n: nat, ctx: nat, fate: Fate)
    requires h < |s.handles|
    ensures s.handles[h].pc == SendDelete(n, ctx) ==>
              var s' := Apply(s, StepCaller(h, fate));
              s'.cancelled == s.cancelled && s'.handles[h].pc.EndUnlock? && s'.handles[h].pc.ctx == ctx
    ensures s.handles[h].pc.EndUnlock? && s.handles[h].pc.ctx == ctx ==>
              var s' := Apply(s, StepCaller(h, fate));
              && s'.cancelled == s.cancelled + {ctx} && s'.handles[h].pc.Idle?
              && forall r, f :: 0 <= r < |s'.renewers| && s'.renewers[r].pc == Selecting(ctx) ==>
                   Enabled(s', StepRenewer(r, f)) && Apply(s', StepRenewer(r, f)).renewers[r].pc.Exited?
  {
  }
}
