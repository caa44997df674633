/** What holds of the lease lock over whole histories. */
module LeaseTheorems {
  import opened LeaseModel
  import opened Wrappers

  // ---------- The invariant ----------

  ghost predicate KeyInv(s: World) {
    && 0 < s.expire
    && s.released <= s.touched.Keys
    && (forall n :: n in s.touched ==> n < |s.drawnBy| && s.touched[n] <= s.now)
    && (s.key.Held? ==>
          && s.key.owner in s.touched && s.key.owner !in s.released
          && s.key.deadline == s.touched[s.key.owner] + s.expire
          && s.now < s.key.deadline)
  }

  predicate Drew(s: World, h: nat, n: nat) {
    n < |s.drawnBy| && s.drawnBy[n] == h
  }

  /** A nonce belongs to the handle that drew it and is written by one SETNX at most. */
  ghost predicate HandleInv(s: World, h: nat, l: Handle) {
    && (l.nonce.Some? ==> Drew(s, h, l.nonce.value))
    && (l.holds.Some? ==> Drew(s, h, l.holds.value) && l.holds.value in s.touched && l.holds.value !in s.released)
    && (l.last.Unlocked? ==> l.last.nonce in s.released)
    && match l.pc {
      case SetContext(n) => Drew(s, h, n) && n !in s.touched && l.holds != Some(n)
      case SetNonce(n) => Drew(s, h, n) && n !in s.touched && l.ctx.Some?
      case SendSetNx(n) => Drew(s, h, n) && n !in s.touched && l.ctx.Some? && l.nonce == Some(n)
      case EndTryLock(n, reply) =>
        && Drew(s, h, n) && n !in s.released && (reply == Yes ==> n in s.touched)
        && l.ctx.Some? && l.nonce == Some(n)
      case SendDelete(n, _) => Drew(s, h, n)
      case EndUnlock(n, _, reply) => reply == Yes ==> n in s.released
      case Idle => true
    }
  }

  ghost predicate HandlesInv(s: World) {
    forall h :: 0 <= h < |s.handles| ==> HandleInv(s, h, s.handles[h])
  }

  ghost predicate Inv(s: World) {
    KeyInv(s) && HandlesInv(s)
  }

  lemma KeyInvStep(s: World, step: Step)
    requires Inv(s) && Enabled(s, step)
    ensures KeyInv(Apply(s, step))
  {
    if step.StepCaller? {
      assert HandleInv(s, step.h, s.handles[step.h]);
    }
  }

  /** A command of handle h touches or releases only nonces that h drew. */
  lemma OthersStep(s: World, step: Step, h: nat)
    requires Inv(s) && Enabled(s, step) && h < |s.handles|
    requires (step.BeginTryLock? || step.BeginUnlock? || step.StepCaller?) ==> step.h != h
    ensures HandleInv(Apply(s, step), h, s.handles[h])
  {
    assert HandleInv(s, h, s.handles[h]);
    if step.StepCaller? {
      assert HandleInv(s, step.h, s.handles[step.h]);
    }
  }

  lemma OwnStep(s: World, step: Step, h: nat)
    requires Inv(s) && Enabled(s, step) && h < |s.handles|
    requires (step.BeginTryLock? || step.BeginUnlock? || step.StepCaller?) && step.h == h
    ensures HandleInv(Apply(s, step), h, NextHandle(s, h, step))
  {
    assert HandleInv(s, h, s.handles[h]);
  }

  lemma InvStep(s: World, step: Step)
    requires Inv(s) && Enabled(s, step)
    ensures Inv(Apply(s, step))
  {
    KeyInvStep(s, step);
    var s' := Apply(s, step);
    forall h | 0 <= h < |s'.handles| ensures HandleInv(s', h, s'.handles[h]) {
      if h < |s.handles| {
        if (step.BeginTryLock? || step.BeginUnlock? || step.StepCaller?) && step.h == h {
          OwnStep(s, step, h);
        } else {
          OthersStep(s, step, h);
        }
      }
    }
  }

  lemma {:induction false} InvRun(expire: int, steps: seq<Step>)
    requires 0 < expire && CanRun(expire, steps)
    ensures Inv(After(expire, steps)) && After(expire, steps).expire == expire
  {
    if steps != [] {
      var front := steps[..|steps| - 1];
      InvRun(expire, front);
      InvStep(After(expire, front), steps[|steps| - 1]);
    }
  }

  lemma {:induction false} PrefixRuns(expire: int, steps: seq<Step>, k: nat)
    requires CanRun(expire, steps) && k <= |steps|
    ensures CanRun(expire, steps[..k])
  {
    if k < |steps| {
      var front := steps[..|steps| - 1];
      assert front[..k] == steps[..k];
      PrefixRuns(expire, front, k);
    } else {
      assert steps[..k] == steps;
    }
  }

  /** The state after the first k steps. */
  ghost function At(expire: int, steps: seq<Step>, k: nat): World
    requires CanRun(expire, steps) && k <= |steps|
  {
    PrefixRuns(expire, steps, k);
    After(expire, steps[..k])
  }

  lemma AtStart(expire: int, steps: seq<Step>)
    requires CanRun(expire, steps)
    ensures At(expire, steps, 0) == Init(expire)
  {
    assert steps[..0] == [];
  }

  lemma AtNext(expire: int, steps: seq<Step>, k: nat)
    requires CanRun(expire, steps) && k < |steps|
    ensures Enabled(At(expire, steps, k), steps[k])
    ensures At(expire, steps, k + 1) == Apply(At(expire, steps, k), steps[k])
  {
    PrefixRuns(expire, steps, k + 1);
    assert steps[..k + 1][..k] == steps[..k];
  }

  lemma AtInv(expire: int, steps: seq<Step>, k: nat)
    requires 0 < expire && CanRun(expire, steps) && k <= |steps|
    ensures Inv(At(expire, steps, k)) && At(expire, steps, k).expire == expire
  {
    PrefixRuns(expire, steps, k);
    InvRun(expire, steps[..k]);
  }

  // ---------- Ownership transitions ----------

  /** One step of the key, see OwnershipTransitions. */
  lemma TransitionOf(s: World, step: Step)
    requires Inv(s) && Enabled(s, step)
    ensures var s' := Apply(s, step);
            var cmd := CommandOf(s, step);
            && (s.key.Free? && s'.key.Held? ==>
                  cmd == Some(SetNx(s'.key.owner)) && s'.key.owner !in s.touched)
            && (s.key.Held? && s'.key.Free? ==>
                  cmd == Some(DeleteIfOwner(s.key.owner)) || s.key.deadline <= s'.now || step.LoseKey?)
            && (s.key.Held? && s'.key.Held? ==>
                  s'.key.owner == s.key.owner
                  && (s'.key != s.key ==> cmd == Some(RenewIfOwner(s.key.owner))))
            && (s'.key.Held? ==> s'.now < s'.key.deadline <= s'.now + s'.expire)
  {
    InvStep(s, step);
    if step.StepCaller? {
      assert HandleInv(s, step.h, s.handles[step.h]);
    }
  }

  /** The key goes from owner to free to owner. Only a SETNX takes it, with a nonce that
      never had it before; only its own nonce, its deadline or a failure of the server
      frees it; and its deadline moves only for its own nonce and never beyond expire. */
  lemma OwnershipTransitions(expire: int, steps: seq<Step>, k: nat)
    requires 0 < expire && CanRun(expire, steps) && k < |steps|
    ensures Enabled(At(expire, steps, k), steps[k])
    ensures var s, s' := At(expire, steps, k), At(expire, steps, k + 1);
            var cmd := CommandOf(s, steps[k]);
            && (s.key.Free? && s'.key.Held? ==>
                  cmd == Some(SetNx(s'.key.owner)) && s'.key.owner !in s.touched)
            && (s.key.Held? && s'.key.Free? ==>
                  cmd == Some(DeleteIfOwner(s.key.owner)) || s.key.deadline <= s'.now || steps[k].LoseKey?)
            && (s.key.Held? && s'.key.Held? ==>
                  s'.key.owner == s.key.owner
                  && (s'.key != s.key ==> cmd == Some(RenewIfOwner(s.key.owner))))
            && (s'.key.Held? ==> s'.now < s'.key.deadline <= s'.now + expire)
  {
    AtNext(expire, steps, k);
    AtInv(expire, steps, k);
    TransitionOf(At(expire, steps, k), steps[k]);
  }

  /** A nonce that has lost the key never owns it again. */
  lemma {:induction false} NeverAgain(expire: int, steps: seq<Step>, i: nat, j: nat, n: nat)
    requires 0 < expire && CanRun(expire, steps) && i <= j <= |steps|
    requires n in At(expire, steps, i).touched && !OwnedBy(At(expire, steps, i).key, n)
    ensures n in At(expire, steps, j).touched && !OwnedBy(At(expire, steps, j).key, n)
    decreases j - i
  {
    if i < j {
      AtNext(expire, steps, i);
      AtInv(expire, steps, i);
      TransitionOf(At(expire, steps, i), steps[i]);
      NeverAgain(expire, steps, i + 1, j, n);
    }
  }

  /** Step k is the server executing cmd with answer 1. */
  ghost predicate Succeeds(expire: int, steps: seq<Step>, k: nat, cmd: Command)
    requires CanRun(expire, steps) && k < |steps|
  {
    var s := At(expire, steps, k);
    AtNext(expire, steps, k);
    CommandOf(s, steps[k]) == Some(cmd) && Answer(s.key, cmd) == Yes
  }

  lemma FirstTouch(s: World, step: Step, n: nat)
    requires KeyInv(s) && Enabled(s, step) && n !in s.touched && n in Apply(s, step).touched
    ensures CommandOf(s, step) == Some(SetNx(n)) && Answer(s.key, SetNx(n)) == Yes
    ensures OwnedBy(Apply(s, step).key, n)
  {
  }

  /** A nonce that has the key, or had it, got it from its own SETNX. */
  lemma {:induction false} WrittenBySetNx(expire: int, steps: seq<Step>, j: nat, n: nat) returns (i: nat)
    requires 0 < expire && CanRun(expire, steps) && j <= |steps|
    requires n in At(expire, steps, j).touched
    ensures i < j && Succeeds(expire, steps, i, SetNx(n))
    ensures n in At(expire, steps, i + 1).touched && OwnedBy(At(expire, steps, i + 1).key, n)
  {
    hide CanRun, After, At, HandlesInv, Apply;
    if j == 0 {
      Untouched(expire, steps, n);
    } else {
      AtNext(expire, steps, j - 1);
      AtInv(expire, steps, j - 1);
      if n in At(expire, steps, j - 1).touched {
        i := WrittenBySetNx(expire, steps, j - 1, n);
      } else {
        FirstTouch(At(expire, steps, j - 1), steps[j - 1], n);
        i := j - 1;
      }
    }
  }

  lemma Untouched(expire: int, steps: seq<Step>, n: nat)
    requires CanRun(expire, steps)
    ensures n !in At(expire, steps, 0).touched
  {
    AtStart(expire, steps);
  }

  /** An Unlock script or a renewal that answers 1 certifies unbroken ownership: from the
      SETNX that wrote the nonce to that moment the key belonged to no one else. */
  lemma SuccessCertifies(expire: int, steps: seq<Step>, j: nat, n: nat)
    requires 0 < expire && CanRun(expire, steps) && j < |steps|
    requires Succeeds(expire, steps, j, DeleteIfOwner(n)) || Succeeds(expire, steps, j, RenewIfOwner(n))
    ensures exists i :: 0 <= i < j && Succeeds(expire, steps, i, SetNx(n))
              && forall k {:trigger At(expire, steps, k)} :: i < k <= j ==> OwnedBy(At(expire, steps, k).key, n)
  {
    AtInv(expire, steps, j);
    var i := WrittenBySetNx(expire, steps, j, n);
    forall k | i < k <= j ensures OwnedBy(At(expire, steps, k).key, n) {
      TouchedStays(expire, steps, i + 1, k, n);
      if !OwnedBy(At(expire, steps, k).key, n) {
        NeverAgain(expire, steps, k, j, n);
      }
    }
  }

  lemma {:induction false} TouchedStays(expire: int, steps: seq<Step>, i: nat, j: nat, n: nat)
    requires CanRun(expire, steps) && i <= j <= |steps|
    requires n in At(expire, steps, i).touched
    ensures n in At(expire, steps, j).touched
    decreases j - i
  {
    if i < j {
      AtNext(expire, steps, i);
      TouchedStays(expire, steps, i + 1, j, n);
    }
  }

  /** Unlock that returns nil did delete the key of its own unbroken lease. */
  lemma UnlockNilCertifies(expire: int, steps: seq<Step>, h: nat)
    requires 0 < expire && CanRun(expire, steps)
    requires h < |After(expire, steps).handles| && After(expire, steps).handles[h].last.Unlocked?
    ensures var n := After(expire, steps).handles[h].last.nonce;
            exists i, j :: 0 <= i < j < |steps|
              && Succeeds(expire, steps, i, SetNx(n)) && Succeeds(expire, steps, j, DeleteIfOwner(n))
              && forall k {:trigger At(expire, steps, k)} :: i < k <= j ==> OwnedBy(At(expire, steps, k).key, n)
  {
    var n := After(expire, steps).handles[h].last.nonce;
    InvRun(expire, steps);
    assert steps[..|steps|] == steps;
    assert HandleInv(After(expire, steps), h, After(expire, steps).handles[h]);
    var j := ReleasedByDelete(expire, steps, |steps|, n);
    SuccessCertifies(expire, steps, j, n);
  }

  lemma {:induction false} ReleasedByDelete(expire: int, steps: seq<Step>, k: nat, n: nat) returns (j: nat)
    requires CanRun(expire, steps) && k <= |steps| && n in At(expire, steps, k).released
    ensures j < k && Succeeds(expire, steps, j, DeleteIfOwner(n))
  {
    AtStart(expire, steps);
    AtNext(expire, steps, k - 1);
    if n in At(expire, steps, k - 1).released {
      j := ReleasedByDelete(expire, steps, k - 1, n);
    } else {
      j := k - 1;
    }
  }

  // ---------- Timed mutual exclusion ----------

  /** The last SETNX or renewal of n is less than expire ago, unless n is done. */
  predicate InTime(s: World, n: nat) {
    n in s.touched && n !in s.released ==> s.now < s.touched[n] + s.expire
  }

  /** n renewed in time all along. */
  ghost predicate Timely(expire: int, steps: seq<Step>, n: nat)
    requires CanRun(expire, steps)
  {
    forall k {:trigger At(expire, steps, k)} :: 0 <= k <= |steps| ==> InTime(At(expire, steps, k), n)
  }

  predicate NoLoss(steps: seq<Step>) {
    forall k :: 0 <= k < |steps| ==> !steps[k].LoseKey?
  }

  /** With a server that does not lose the key, a nonce owns it exactly when it took it,
      has not released it and renewed in time all along. */
  lemma OwnsExactlyWhenTimely(expire: int, steps: seq<Step>, n: nat)
    requires 0 < expire && CanRun(expire, steps) && NoLoss(steps)
    ensures var s := After(expire, steps);
            OwnedBy(s.key, n) <==> n in s.touched && n !in s.released && Timely(expire, steps, n)
  {
    assert steps[..|steps|] == steps;
    InvRun(expire, steps);
    var s := After(expire, steps);
    if OwnedBy(s.key, n) {
      forall k | 0 <= k <= |steps| ensures InTime(At(expire, steps, k), n) {
        AtInv(expire, steps, k);
        if n in At(expire, steps, k).touched && !OwnedBy(At(expire, steps, k).key, n) {
          NeverAgain(expire, steps, k, |steps|, n);
        }
      }
    }
    if n in s.touched && n !in s.released && Timely(expire, steps, n) {
      TimelyOwns(expire, steps, |steps|, n);
    }
  }

  lemma {:induction false} TimelyOwns(expire: int, steps: seq<Step>, k: nat, n: nat)
    requires 0 < expire && CanRun(expire, steps) && NoLoss(steps) && k <= |steps|
    requires Timely(expire, steps, n)
    requires n in At(expire, steps, k).touched && n !in At(expire, steps, k).released
    ensures OwnedBy(At(expire, steps, k).key, n)
  {
    hide CanRun, After, At, HandlesInv, Apply, CommandOf, Answer;
    if k == 0 {
      Untouched(expire, steps, n);
    } else {
      var s := At(expire, steps, k - 1);
      AtNext(expire, steps, k - 1);
      AtInv(expire, steps, k - 1);
      AtInv(expire, steps, k);
      if n in s.touched {
        ReleasedStays(s, steps[k - 1]);
        TimelyOwns(expire, steps, k - 1, n);
        assert InTime(At(expire, steps, k), n);
        OwnerStays(s, steps[k - 1], n);
      } else {
        FirstTouch(s, steps[k - 1], n);
      }
    }
  }

  lemma ReleasedStays(s: World, step: Step)
    requires Enabled(s, step)
    ensures s.released <= Apply(s, step).released
  {
  }

  /** An owner that does not release the key in a step loses it only at its deadline. */
  lemma OwnerStays(s: World, step: Step, n: nat)
    requires Inv(s) && Enabled(s, step) && !step.LoseKey? && OwnedBy(s.key, n)
    requires n !in Apply(s, step).released && InTime(Apply(s, step), n)
    ensures OwnedBy(Apply(s, step).key, n)
  {
    TransitionOf(s, step);
  }

  /** Two handles are never both between a TryLock that returned true and the script of
      their Unlock, provided that both renewed in time and the server kept the key. */
  lemma TimedMutualExclusion(expire: int, steps: seq<Step>, g: nat, h: nat)
    requires 0 < expire && CanRun(expire, steps) && NoLoss(steps)
    requires g < |After(expire, steps).handles| && After(expire, steps).handles[g].holds.Some?
    requires h < |After(expire, steps).handles| && After(expire, steps).handles[h].holds.Some?
    requires Timely(expire, steps, After(expire, steps).handles[g].holds.value)
    requires Timely(expire, steps, After(expire, steps).handles[h].holds.value)
    ensures g == h
  {
    var s := After(expire, steps);
    InvRun(expire, steps);
    assert HandleInv(s, g, s.handles[g]) && HandleInv(s, h, s.handles[h]);
    OwnsExactlyWhenTimely(expire, steps, s.handles[g].holds.value);
    OwnsExactlyWhenTimely(expire, steps, s.handles[h].holds.value);
  }

  /** A holder that stops renewing loses the key within expire of wherever it stood: no
      renewal of n is executed between steps i and j, and expire has passed. */
  lemma CrashFreesKey(expire: int, steps: seq<Step>, i: nat, j: nat, n: nat)
    requires 0 < expire && CanRun(expire, steps) && i <= j <= |steps|
    requires n in At(expire, steps, i).touched
    requires forall k :: i <= k < j ==> !Succeeds(expire, steps, k, RenewIfOwner(n))
    requires At(expire, steps, i).now + expire <= At(expire, steps, j).now
    ensures !OwnedBy(At(expire, steps, j).key, n)
  {
    AtInv(expire, steps, i);
    AtInv(expire, steps, j);
    NoNewTouch(expire, steps, i, j, n);
  }

  lemma {:induction false} NoNewTouch(expire: int, steps: seq<Step>, i: nat, j: nat, n: nat)
    requires 0 < expire && CanRun(expire, steps) && i <= j <= |steps|
    requires n in At(expire, steps, i).touched
    requires forall k :: i <= k < j ==> !Succeeds(expire, steps, k, RenewIfOwner(n))
    ensures n in At(expire, steps, j).touched
    ensures At(expire, steps, j).touched[n] == At(expire, steps, i).touched[n]
    decreases j - i
  {
    if i < j {
      var s := At(expire, steps, i);
      AtNext(expire, steps, i);
      AtInv(expire, steps, i);
      assert !Succeeds(expire, steps, i, RenewIfOwner(n));
      if steps[i].StepCaller? {
        assert HandleInv(s, steps[i].h, s.handles[steps[i].h]);
      }
      NoNewTouch(expire, steps, i + 1, j, n);
    }
  }

  // ---------- Where the code falls short ----------

  lemma Extend(expire: int, steps: seq<Step>, s: World, step: Step) returns (longer: seq<Step>, s': World)
    requires CanRun(expire, steps) && s == After(expire, steps) && Enabled(s, step)
    ensures CanRun(expire, longer) && s' == After(expire, longer) && s' == Apply(s, step)
    ensures longer == steps + [step]
  {
    longer, s' := steps + [step], Apply(s, step);
    assert longer[..|longer| - 1] == steps;
  }

  /** TryLock by handle h, with nothing in between. */
  function TryLockSteps(h: nat): seq<Step> {
    [BeginTryLock(h, false), StepCaller(h, Answered), StepCaller(h, Answered),
     StepCaller(h, Answered), StepCaller(h, Answered)]
  }

  lemma TryLockReachesSetNx(expire: int, steps: seq<Step>, s: World, h: nat) returns (longer: seq<Step>, s': World)
    requires CanRun(expire, steps) && s == After(expire, steps)
    requires h < |s.handles| && s.handles[h].pc.Idle?
    requires s.key.Held? ==> s.now < s.key.deadline
    ensures CanRun(expire, longer) && s' == After(expire, longer)
    ensures longer == steps + TryLockSteps(h)[..3]
    ensures var n := |s.drawnBy|;
            var l := s.handles[h].(pc := SendSetNx(n), nonce := Some(n), ctx := Some(s.contexts));
            s' == s.(handles := s.handles[h := l], drawnBy := s.drawnBy + [h], contexts := s.contexts + 1)
  {
    hide CanRun, After;
    var s1, s2;
    longer, s1 := Extend(expire, steps, s, BeginTryLock(h, false));
    var l1 := s.handles[h].(pc := SetContext(|s.drawnBy|));
    assert s1 == s.(handles := s.handles[h := l1], drawnBy := s.drawnBy + [h]);
    longer, s2 := Extend(expire, longer, s1, StepCaller(h, Answered));
    longer, s' := Extend(expire, longer, s2, StepCaller(h, Answered));
  }

  lemma TryLockUndisturbed(expire: int, steps: seq<Step>, s: World, h: nat) returns (longer: seq<Step>, s': World)
    requires CanRun(expire, steps) && s == After(expire, steps)
    requires h < |s.handles| && s.handles[h].pc.Idle? && 0 < s.expire
    requires s.key.Held? ==> s.now < s.key.deadline
    ensures CanRun(expire, longer) && s' == After(expire, longer)
    ensures longer == steps + TryLockSteps(h)
    ensures s'.drawnBy == s.drawnBy + [h] && s'.now == s.now && s'.expire == s.expire && s'.contexts == s.contexts + 1
    ensures s'.key == if s.key.Free? then Execute(s.key, SetNx(|s.drawnBy|), s.now, s.expire) else s.key
    ensures |s'.handles| == |s.handles|
    ensures forall g :: 0 <= g < |s.handles| && g != h ==> s'.handles[g] == s.handles[g]
    ensures var n := |s.drawnBy|;
            s'.handles[h] == if s.key.Free? then Handle(Idle, Some(n), Some(s.contexts), Locked(n), Some(n))
                             else Handle(Idle, Some(n), Some(s.contexts), LockBusy, s.handles[h].holds)
  {
    hide CanRun, After;
    var s3, s4;
    longer, s3 := TryLockReachesSetNx(expire, steps, s, h);
    longer, s4 := Extend(expire, longer, s3, StepCaller(h, Answered));
    longer, s' := Extend(expire, longer, s4, StepCaller(h, Answered));
  }

  lemma FirstHolder(expire: int) returns (steps: seq<Step>, s: World)
    requires 0 < expire
    ensures CanRun(expire, steps) && NoLoss(steps) && s == After(expire, steps)
    ensures s.handles == [Handle(Idle, Some(0), Some(0), Locked(0), Some(0)), Handle(Idle, None, None, NotYet, None)]
    ensures s.key == Held(0, expire) && s.now == 0 && s.expire == expire && |s.drawnBy| == 1
  {
    s := Init(expire);
    steps := [];
    steps, s := Extend(expire, steps, s, NewHandle);
    steps, s := Extend(expire, steps, s, NewHandle);
    assert s.handles == [Handle(Idle, None, None, NotYet, None), Handle(Idle, None, None, NotYet, None)];
    steps, s := TryLockUndisturbed(expire, steps, s, 0);
    assert s.handles[0] == Handle(Idle, Some(0), Some(0), Locked(0), Some(0));
  }

  /** Without renewals in time exclusion fails: after expire both handles hold the lock. */
  lemma LateHoldersOverlap(expire: int) returns (steps: seq<Step>)
    requires 0 < expire
    ensures CanRun(expire, steps) && NoLoss(steps)
    ensures var s := After(expire, steps);
            |s.handles| == 2 && s.handles[0].holds == Some(0) && s.handles[1].holds == Some(1)
  {
    var s, s';
    steps, s := FirstHolder(expire);
    steps, s := Extend(expire, steps, s, Tick(expire));
    assert s.key == Free;
    steps, s' := TryLockUndisturbed(expire, steps, s, 1);
    assert s'.handles[0] == s.handles[0];
  }

  /** The same in every run: whoever holds the lock, if no renewal is executed for expire,
      a newcomer takes the key with a timely nonce while the old holder still believes it
      has it. */
  lemma UntimelyHolderOverlaps(expire: int, steps: seq<Step>, g: nat, n: nat) returns (longer: seq<Step>, h: nat)
    requires 0 < expire && CanRun(expire, steps) && NoLoss(steps)
    requires g < |After(expire, steps).handles| && After(expire, steps).handles[g].holds == Some(n)
    ensures CanRun(expire, longer) && NoLoss(longer) && longer == steps + [Tick(expire), NewHandle] + TryLockSteps(h)
    ensures var s := After(expire, longer);
            && g < |s.handles| && s.handles[g].holds == Some(n) && !Timely(expire, longer, n)
            && h < |s.handles| && h != g && s.handles[h].holds.Some?
            && Timely(expire, longer, s.handles[h].holds.value)
  {
    hide CanRun, After;
    var s := After(expire, steps);
    InvRun(expire, steps);
    h := |s.handles|;
    longer, s := Extend(expire, steps, s, Tick(expire));
    assert s.key == Free;
    longer, s := Extend(expire, longer, s, NewHandle);
    var m := |s.drawnBy|;
    longer, s := TryLockUndisturbed(expire, longer, s, h);
    InvRun(expire, longer);
    assert HandleInv(s, g, s.handles[g]);
    assert OwnedBy(s.key, m) && s.handles[h].holds == Some(m) && s.handles[g].holds == Some(n);
    assert n != m;
    OwnsExactlyWhenTimely(expire, longer, m);
    OwnsExactlyWhenTimely(expire, longer, n);
  }

  /** A second TryLock on a handle that holds the lock overwrites its nonce. */
  lemma RetryOverwritesNonce(expire: int) returns (steps: seq<Step>, s: World)
    requires 0 < expire
    ensures CanRun(expire, steps) && NoLoss(steps) && s == After(expire, steps)
    ensures s.handles == [Handle(Idle, Some(1), Some(1), LockBusy, Some(0))]
    ensures s.key == Held(0, expire) && s.now == 0 && s.expire == expire
  {
    s := Init(expire);
    steps := [];
    steps, s := Extend(expire, steps, s, NewHandle);
    assert s.handles == [Handle(Idle, None, None, NotYet, None)];
    steps, s := TryLockUndisturbed(expire, steps, s, 0);
    assert s.handles == [Handle(Idle, Some(0), Some(0), Locked(0), Some(0))] && s.contexts == 1 by {
      assert s.handles[0] == Handle(Idle, Some(0), Some(0), Locked(0), Some(0));
    }
    steps, s := TryLockUndisturbed(expire, steps, s, 0);
    assert s.handles[0] == Handle(Idle, Some(1), Some(1), LockBusy, Some(0));
  }

  /** The Unlock that follows reports an expired lock and the key keeps the first nonce,
      although no time has passed and no other handle exists. */
  lemma RetryOrphansLock(expire: int) returns (steps: seq<Step>)
    requires 0 < expire
    ensures CanRun(expire, steps) && NoLoss(steps)
    ensures var s := After(expire, steps);
            && |s.handles| == 1 && s.now == 0 && s.key == Held(0, expire)
            && s.handles[0].last == UnlockExpired
  {
    var s: World;
    steps, s := RetryOverwritesNonce(expire);
    steps, s := Extend(expire, steps, s, BeginUnlock(0));
    steps, s := Extend(expire, steps, s, StepCaller(0, Answered));
    steps, s := Extend(expire, steps, s, StepCaller(0, Answered));
  }

  /** Exactly when the script of an Unlock call frees the key from the lock that its handle
      holds: when the handle still carries the nonce it locked with and that nonce renewed
      in time. */
  lemma UnlockReleasesExactly(expire: int, steps: seq<Step>, h: nat, ctx: nat, m: nat, n: nat)
    requires 0 < expire && CanRun(expire, steps) && NoLoss(steps)
    requires h < |After(expire, steps).handles|
    requires After(expire, steps).handles[h].pc == SendDelete(m, ctx)
    requires After(expire, steps).handles[h].holds == Some(n)
    ensures var s := After(expire, steps);
            OwnedBy(s.key, n) && Apply(s, StepCaller(h, Answered)).key.Free?
            <==> m == n && Timely(expire, steps, n)
  {
    var s := After(expire, steps);
    InvRun(expire, steps);
    assert HandleInv(s, h, s.handles[h]);
    OwnsExactlyWhenTimely(expire, steps, n);
  }
}
