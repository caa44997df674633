/** The lock as code: the server's commands and the methods of a handle, each run without
    interference. The commands are the functions that the step system interleaves. */
module RedisLockCode {
  import opened LeaseModel
  import opened Wrappers

  class RedisServer {
    var key: Lease
    var now: int

    ghost predicate Valid()
      reads this
    {
      key.Held? ==> now < key.deadline
    }

    constructor ()
      ensures Valid() && key == Free
    {
      key, now := Free, 0;
    }

    /** SET key nonce NX with an expiry. */
    method SetNX(nonce: nat, expire: int) returns (wrote: bool)
      requires Valid() && 0 < expire
      modifies this`key
      ensures Valid() && key == Execute(old(key), SetNx(nonce), now, expire)
      ensures wrote == old(key.Free?)
    {
      wrote := key.Free?;
      if wrote {
        key := Held(nonce, now + expire);
      }
    }

    /** The renewal script: GET, compare, EXPIRE. */
    method EvalRenew(nonce: nat, expire: int) returns (done: bool)
      requires Valid() && 0 < expire
      modifies this`key
      ensures Valid() && key == Execute(old(key), RenewIfOwner(nonce), now, expire)
      ensures done == OwnedBy(old(key), nonce)
    {
      done := key.Held? && key.owner == nonce;
      if done {
        key := key.(deadline := now + expire);
      }
    }

    /** The unlock script: GET, compare, DEL. */
    method EvalDelete(nonce: nat) returns (done: bool)
      requires Valid()
      modifies this`key
      ensures Valid() && key == Execute(old(key), DeleteIfOwner(nonce), now, 0)
      ensures done == OwnedBy(old(key), nonce)
    {
      done := key.Held? && key.owner == nonce;
      if done {
        key := Free;
      }
    }

    method Wait(d: nat)
      requires Valid()
      modifies this
      ensures Valid() && now == old(now) + d && key == Expired(old(key), now)
    {
      now := now + d;
      if key.Held? && key.deadline <= now {
        key := Free;
      }
    }
  }

  /** What renewLock's select sees: the ticker after some time, or the context done; or, in
      between, that another TryLock on the handle has overwritten its fields. */
  datatype Wakeup = Ticked(wait: nat, fate: Fate) | ContextDone | Overwritten(nonce: nat, context: nat)

  predicate InTimeAndAnswered(wakeup: Wakeup, expire: int) {
    wakeup.Ticked? && wakeup.wait < expire && wakeup.fate == Answered
  }

  /** None of the nonces that are written over the handle's while it waits has the key. */
  predicate Foreign(key: Lease, wakeups: seq<Wakeup>) {
    forall i :: 0 <= i < |wakeups| && wakeups[i].Overwritten? ==> !OwnedBy(key, wakeups[i].nonce)
  }

  /** The wakeups after which the watchdog is gone whatever the key says. */
  predicate EndsIt(wakeup: Wakeup) {
    wakeup.ContextDone? || (wakeup.Ticked? && wakeup.fate != Answered)
  }

  function Ticks(wakeups: seq<Wakeup>): nat {
    if wakeups == [] then 0
    else Ticks(wakeups[..|wakeups| - 1]) + if wakeups[|wakeups| - 1].Ticked? then 1 else 0
  }

  function Waited(wakeups: seq<Wakeup>): nat {
    if wakeups == [] then 0
    else Waited(wakeups[..|wakeups| - 1]) + if wakeups[|wakeups| - 1].Ticked? then wakeups[|wakeups| - 1].wait else 0
  }

  /** No TryLock has overwritten the handle's fields in the first n wakeups. */
  predicate Untouched(wakeups: seq<Wakeup>, n: nat)
    requires n <= |wakeups|
  {
    forall i :: 0 <= i < n ==> !wakeups[i].Overwritten?
  }

  predicate Written(wakeups: seq<Wakeup>, n: nat, nonce: nat)
    requires n <= |wakeups|
  {
    exists i :: 0 <= i < n && wakeups[i].Overwritten? && wakeups[i].nonce == nonce
  }

  lemma NoWakeup(wakeups: seq<Wakeup>)
    ensures Untouched(wakeups, 0) && Ticks(wakeups[..0]) == Waited(wakeups[..0]) == 0
  {
  }

  lemma NextWakeup(key: Lease, wakeups: seq<Wakeup>, n: nat)
    requires n < |wakeups|
    ensures Ticks(wakeups[..n + 1]) == Ticks(wakeups[..n]) + if wakeups[n].Ticked? then 1 else 0
    ensures Waited(wakeups[..n + 1]) == Waited(wakeups[..n]) + if wakeups[n].Ticked? then wakeups[n].wait else 0
    ensures Untouched(wakeups, n + 1) <==> Untouched(wakeups, n) && !wakeups[n].Overwritten?
    ensures forall nonce :: Written(wakeups, n, nonce) ==> Written(wakeups, n + 1, nonce)
    ensures wakeups[n].Overwritten? ==> Written(wakeups, n + 1, wakeups[n].nonce)
    ensures wakeups[0].Overwritten? && 0 < n ==> !Untouched(wakeups, n)
    ensures (forall i :: 0 <= i < n ==> wakeups[i].Ticked?) ==> Untouched(wakeups, n)
    ensures forall nonce :: Foreign(key, wakeups) && Written(wakeups, n, nonce) ==> !OwnedBy(key, nonce)
  {
    assert wakeups[..n + 1][..n] == wakeups[..n];
  }

  class RedisLock {
    const expire: int
    const client: RedisServer
    var nonce: Option<nat>
    var ctx: Option<nat>
    var cancelled: set<nat>

    ghost predicate Valid()
      reads this, client
    {
      0 < expire && client.Valid() && (ctx.Some? ==> nonce.Some?)
    }

    constructor (client: RedisServer, expire: int)
      requires client.Valid() && 0 < expire
      ensures Valid() && this.client == client && this.expire == expire && nonce == None && ctx == None
    {
      this.client, this.expire, nonce, ctx, cancelled := client, expire, None, None, {};
    }

    /** `drawn` is the nonce from the random source, if it works; `context` names the new
        context. The handle's fields are overwritten whether or not the lock is taken. */
    method TryLock(drawn: Option<nat>, context: nat, fate: Fate) returns (result: Result)
      requires Valid()
      modifies this, client`key
      ensures Valid() && cancelled == old(cancelled)
      ensures drawn.None? ==>
                result == LockFailed && nonce == old(nonce) && ctx == old(ctx) && client.key == old(client.key)
      ensures drawn.Some? ==> nonce == drawn && ctx == Some(context)
      ensures drawn.Some? ==> result == ResultOfTryLock(drawn.value,
                if fate == Answered then Answer(old(client.key), SetNx(drawn.value)) else Failed)
      ensures drawn.Some? ==> client.key == if fate == Dropped then old(client.key)
                else Execute(old(client.key), SetNx(drawn.value), client.now, expire)
      ensures result.Locked? ==> client.key == Held(result.nonce, client.now + expire)
      ensures result.Locked? <==> drawn.Some? && old(client.key.Free?) && fate == Answered
      ensures result == LockBusy <==> drawn.Some? && old(client.key.Held?) && fate == Answered
      ensures result == LockFailed <==> drawn.None? || fate != Answered
      ensures client.key == if drawn.Some? && old(client.key.Free?) && fate != Dropped
                            then Held(drawn.value, client.now + expire) else old(client.key)
    {
      if drawn.None? {
        return LockFailed;
      }
      ctx := Some(context);
      nonce := drawn;
      if fate == Dropped {
        return LockFailed;
      }
      var ok := client.SetNX(nonce.value, expire);
      if fate == AnswerLost {
        return LockFailed;
      }
      result := if ok then Locked(nonce.value) else LockBusy;
    }

    /** One turn of the watchdog's select: what it sends, and whether the loop goes on. The
        nonce is read from the handle. */
    method Round(wakeup: Wakeup) returns (goesOn: bool)
      requires Valid() && ctx.Some?
      modifies client, this`nonce, this`ctx
      ensures Valid() && ctx.Some?
      ensures wakeup.ContextDone? ==>
                !goesOn && client.key == old(client.key) && client.now == old(client.now)
                && nonce == old(nonce) && ctx == old(ctx)
      ensures wakeup.Overwritten? ==>
                goesOn && client.key == old(client.key) && client.now == old(client.now)
                && nonce == Some(wakeup.nonce) && ctx == Some(wakeup.context)
      ensures wakeup.Ticked? ==>
                && nonce == old(nonce) && ctx == old(ctx) && client.now == old(client.now) + wakeup.wait
                && (var reached := Expired(old(client.key), client.now);
                    && client.key == (if wakeup.fate != Dropped && OwnedBy(reached, nonce.value)
                                      then Held(nonce.value, client.now + expire) else reached)
                    && (goesOn <==> wakeup.fate == Answered && OwnedBy(reached, nonce.value)))
    {
      match wakeup
      case ContextDone =>
        goesOn := false;
      case Overwritten(other, context) =>
        nonce, ctx := Some(other), Some(context);
        goesOn := true;
      case Ticked(wait, fate) =>
        client.Wait(wait);
        goesOn := false;
        if fate != Dropped {
          var done := client.EvalRenew(nonce.value, expire);
          goesOn := done && fate == Answered;
        }
    }

    /** The watchdog. It goes through the wakeups until one ends it, at `last` if at all: the
        context is done, or a renewal is not answered by 1. It never changes the owner and
        never touches a key that is not the handle's; while every tick comes before the
        deadline and every renewal is answered, the key stays with the handle. But once a
        TryLock has written another nonce over it, the key is let go. */
    method RenewLock(wakeups: seq<Wakeup>) returns (renewals: nat, last: nat)
      requires Valid() && ctx.Some?
      modifies client, this`nonce, this`ctx
      ensures Valid() && ctx.Some? && renewals <= last <= |wakeups| && renewals == Ticks(wakeups[..last])
      ensures forall i :: 0 <= i < last ==> !EndsIt(wakeups[i])
      ensures last < |wakeups| ==>
                EndsIt(wakeups[last]) || (wakeups[last].Ticked? && !OwnedBy(client.key, nonce.value))
      ensures forall i :: 0 <= i < |wakeups| && EndsIt(wakeups[i]) ==> renewals <= i
      ensures client.now == old(client.now) + Waited(wakeups[..if last < |wakeups| then last + 1 else last])
      ensures client.key.Held? ==> old(client.key.Held?) && client.key.owner == old(client.key.owner)
      ensures !OwnedBy(old(client.key), old(nonce.value)) && Foreign(old(client.key), wakeups) ==>
                client.key == Expired(old(client.key), client.now) && renewals == 0
      ensures wakeups != [] && wakeups[0].Overwritten? && Foreign(old(client.key), wakeups) ==>
                client.key == Expired(old(client.key), client.now) && renewals == 0
      ensures OwnedBy(old(client.key), old(nonce.value)) && old(client.key.deadline) == old(client.now) + expire
              && (forall i :: 0 <= i < |wakeups| ==> InTimeAndAnswered(wakeups[i], expire))
              ==> renewals == |wakeups| && client.key == Held(old(nonce.value), client.now + expire)
    {
      hide Untouched, Written, Foreign, Ticks, Waited;
      NoWakeup(wakeups);
      renewals, last := 0, 0;
      while last < |wakeups|
        invariant Valid() && ctx.Some? && renewals <= last <= |wakeups|
        invariant old(client.now) <= client.now
        invariant renewals == Ticks(wakeups[..last]) && client.now == old(client.now) + Waited(wakeups[..last])
        invariant forall i :: 0 <= i < last ==> !EndsIt(wakeups[i])
        invariant if Untouched(wakeups, last) then nonce == old(nonce) else Written(wakeups, last, nonce.value)
        invariant client.key.Held? ==> old(client.key.Held?) && client.key.owner == old(client.key.owner)
        invariant !OwnedBy(old(client.key), old(nonce.value)) && Foreign(old(client.key), wakeups) ==>
                    client.key == Expired(old(client.key), client.now) && renewals == 0
        invariant wakeups != [] && wakeups[0].Overwritten? && Foreign(old(client.key), wakeups) ==>
                    client.key == Expired(old(client.key), client.now) && renewals == 0
        invariant OwnedBy(old(client.key), old(nonce.value)) && old(client.key.deadline) == old(client.now) + expire
                  && (forall j :: 0 <= j < last ==> InTimeAndAnswered(wakeups[j], expire))
                  ==> renewals == last && client.key == Held(old(nonce.value), client.now + expire)
        decreases |wakeups| - last
      {
        NextWakeup(old(client.key), wakeups, last);
        var goesOn := Round(wakeups[last]);
        if !goesOn {
          return;
        }
        if wakeups[last].Ticked? {
          renewals := renewals + 1;
        }
        last := last + 1;
      }
    }

    /** Unlock returns nil exactly when the script found the handle's nonce in the key and
        its answer arrived; the context is cancelled after the script, whatever it did. */
    method Unlock(fate: Fate) returns (result: Result)
      requires Valid()
      modifies this`cancelled, client`key
      ensures Valid()
      ensures old(ctx).None? ==> result == UnlockFailed && client.key == old(client.key) && cancelled == old(cancelled)
      ensures ctx.Some? ==> cancelled == old(cancelled) + {ctx.value}
      ensures ctx.Some? ==> client.key == if fate == Dropped then old(client.key)
                else Execute(old(client.key), DeleteIfOwner(nonce.value), client.now, expire)
      ensures result.Unlocked? <==> ctx.Some? && fate == Answered && OwnedBy(old(client.key), nonce.value)
      ensures result.Unlocked? ==> client.key == Free && result.nonce == nonce.value
      ensures result == UnlockExpired <==> ctx.Some? && fate == Answered && !OwnedBy(old(client.key), nonce.value)
      ensures result == UnlockFailed <==> ctx.None? || fate != Answered
      ensures client.key == if ctx.Some? && fate != Dropped && OwnedBy(old(client.key), nonce.value)
                            then Free else old(client.key)
      ensures result == UnlockExpired ==> client.key == old(client.key)
    {
      if ctx.None? {
        return UnlockFailed;
      }
      result := UnlockFailed;
      if fate != Dropped {
        var done := client.EvalDelete(nonce.value);
        if fate == Answered {
          result := if done then Unlocked(nonce.value) else UnlockExpired;
        }
      }
      cancelled := cancelled + {ctx.value};
    }
  }
}
