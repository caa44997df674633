/** Whole calls of TryLock and Unlock in the step system, with nothing in between. */
module LeaseCalls {
  import opened LeaseModel
  import opened LeaseTheorems
  import opened Wrappers

  /** TryLock answers true exactly if the key was free and the answer arrived, busy exactly
      if it was held and the answer arrived, and an error otherwise. It takes the key exactly
      if the key was free and the command was executed. Nonce and context are overwritten in
      every case. */
  lemma TryLockAnswers(expire: int, steps: seq<Step>, s: World, h: nat, fate: Fate)
    returns (longer: seq<Step>, s': World)
    requires CanRun(expire, steps) && s == After(expire, steps)
    requires h < |s.handles| && s.handles[h].pc.Idle? && 0 < s.expire
    requires s.key.Held? ==> s.now < s.key.deadline
    ensures CanRun(expire, longer) && s' == After(expire, longer)
    ensures longer == steps + TryLockSteps(h)[..3] + [StepCaller(h, fate), StepCaller(h, Answered)]
    ensures |s'.handles| == |s.handles| && s'.handles[h].pc.Idle? && s'.now == s.now
    ensures var n, l, l' := |s.drawnBy|, s.handles[h], s'.handles[h];
            && l'.nonce == Some(n) && l'.ctx == Some(s.contexts)
            && (l'.last == Locked(n) <==> s.key.Free? && fate == Answered)
            && (l'.last == LockBusy <==> s.key.Held? && fate == Answered)
            && (l'.last == LockFailed <==> fate != Answered)
            && l'.holds == (if l'.last == Locked(n) then Some(n) else l.holds)
            && s'.key == (if s.key.Free? && fate != Dropped then Held(n, s.now + s.expire) else s.key)
            && |s'.renewers| == |s.renewers| + (if l'.last == Locked(n) then 1 else 0)
  {
    hide CanRun, After;
    var s3, s4;
    longer, s3 := TryLockReachesSetNx(expire, steps, s, h);
    longer, s4 := Extend(expire, longer, s3, StepCaller(h, fate));
    longer, s' := Extend(expire, longer, s4, StepCaller(h, Answered));
  }

  /** Without a nonce TryLock fails and changes nothing else. */
  lemma TryLockWithoutNonce(s: World, h: nat)
    requires h < |s.handles| && s.handles[h].pc.Idle?
    requires s.key.Held? ==> s.now < s.key.deadline
    ensures Apply(s, BeginTryLock(h, true)) == s.(handles := s.handles[h := s.handles[h].(last := LockFailed)])
  {
  }

  /** Unlock answers nil exactly if the key carried the handle's nonce and the answer
      arrived, an expired lock exactly if it did not and the answer arrived, and an error
      otherwise. It frees the key exactly if the nonce was there and the script was executed.
      The context is cancelled in every case. */
  lemma UnlockAnswers(expire: int, steps: seq<Step>, s: World, h: nat, fate: Fate)
    returns (longer: seq<Step>, s': World)
    requires CanRun(expire, steps) && s == After(expire, steps)
    requires h < |s.handles| && s.handles[h].pc.Idle? && s.handles[h].nonce.Some? && s.handles[h].ctx.Some?
    requires s.key.Held? ==> s.now < s.key.deadline
    ensures CanRun(expire, longer) && s' == After(expire, longer)
    ensures longer == steps + [BeginUnlock(h), StepCaller(h, fate), StepCaller(h, Answered)]
    ensures |s'.handles| == |s.handles| && s'.handles[h].pc.Idle? && s'.now == s.now
    ensures var n, l, l' := s.handles[h].nonce.value, s.handles[h], s'.handles[h];
            && l'.nonce == l.nonce && l'.ctx == l.ctx && l'.holds == None
            && (l'.last == Unlocked(n) <==> OwnedBy(s.key, n) && fate == Answered)
            && (l'.last == UnlockExpired <==> !OwnedBy(s.key, n) && fate == Answered)
            && (l'.last == UnlockFailed <==> fate != Answered)
            && s'.key == (if OwnedBy(s.key, n) && fate != Dropped then Free else s.key)
            && s'.cancelled == s.cancelled + {l.ctx.value} && s'.renewers == s.renewers
  {
    hide CanRun, After;
    longer, s' := Extend(expire, steps, s, BeginUnlock(h));
    assert s'.key == s.key && s'.handles[h].pc == SendDelete(s.handles[h].nonce.value, s.handles[h].ctx.value);
    longer, s' := Extend(expire, longer, s', StepCaller(h, fate));
    longer, s' := Extend(expire, longer, s', StepCaller(h, Answered));
  }

  /** A handle that has never come as far as its context has nothing to unlock. */
  lemma UnlockWithoutLock(s: World, h: nat)
    requires h < |s.handles| && s.handles[h].pc.Idle? && s.handles[h].ctx.None?
    requires s.key.Held? ==> s.now < s.key.deadline
    ensures Apply(s, BeginUnlock(h)) == s.(handles := s.handles[h := s.handles[h].(last := UnlockFailed)])
  {
  }
}
