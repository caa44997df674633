/** The Redis lease lock: one shared key, any number of handles, and for every successful
    TryLock a goroutine that renews. Each assignment to a handle's fields and each command
    the server executes is one step. */
module LeaseModel {
  import opened Wrappers

  /** The lock key: absent, or a nonce with the time at which Redis deletes it. */
  datatype Lease = Free | Held(owner: nat, deadline: int)

  datatype Command = SetNx(nonce: nat) | RenewIfOwner(nonce: nat) | DeleteIfOwner(nonce: nat)

  datatype Reply = Yes | No | Failed

  /** What becomes of a command: executed and answered, executed with the answer lost, or
      never executed. */
  datatype Fate = Answered | AnswerLost | Dropped

  predicate OwnedBy(key: Lease, nonce: nat) {
    key.Held? && key.owner == nonce
  }

  function Answer(key: Lease, cmd: Command): Reply {
    if cmd.SetNx? then (if key.Free? then Yes else No)
    else if OwnedBy(key, cmd.nonce) then Yes else No
  }

  /** The key after the server has executed a command, both scripts included. */
  function Execute(key: Lease, cmd: Command, now: int, expire: int): Lease {
    if Answer(key, cmd) != Yes then key
    else if cmd.DeleteIfOwner? then Free
    else Held(cmd.nonce, now + expire)
  }

  /** Redis never serves a key past its deadline. */
  function Expired(key: Lease, now: int): Lease {
    if key.Held? && key.deadline <= now then Free else key
  }

  /** How the last TryLock or Unlock call on a handle ended. */
  datatype Result =
    | NotYet
    | Locked(nonce: nat)
    | LockBusy
    | LockFailed
    | Unlocked(nonce: nat)
    | UnlockExpired
    | UnlockFailed

  /** The next action of the caller that uses the handle. */
  datatype CallerPc =
    | Idle
    | SetContext(nonce: nat)
    | SetNonce(nonce: nat)
    | SendSetNx(nonce: nat)
    | EndTryLock(nonce: nat, reply: Reply)
    | SendDelete(nonce: nat, ctx: nat)
    | EndUnlock(nonce: nat, ctx: nat, reply: Reply)

  /** nonce, ctx and pc are the handle's; ctx stands for the pair ctx and cancel, which are
      assigned together. holds is history: the nonce with which TryLock last returned true,
      until the script of an Unlock call has been sent. */
  datatype Handle = Handle(pc: CallerPc, nonce: Option<nat>, ctx: Option<nat>, last: Result, holds: Option<nat>)

  datatype RenewPc =
    | Starting
    | Selecting(ctx: nat)
    | SendRenew(nonce: nat)
    | EndRenew(reply: Reply)
    | Exited

  /** renewLock runs on a handle and reads its fields anew in every round. */
  datatype Renewer = Renewer(h: nat, pc: RenewPc)

  /** A nonce is its position in drawnBy, which records the handle that generated it.
      touched and released are history: when a nonce last wrote the key's deadline, and
      which nonces deleted the key. */
  datatype World = World(
    expire: int,
    now: int,
    key: Lease,
    handles: seq<Handle>,
    renewers: seq<Renewer>,
    drawnBy: seq<nat>,
    contexts: nat,
    cancelled: set<nat>,
    touched: map<nat, int>,
    released: set<nat>)

  datatype Step =
    | NewHandle
    | BeginTryLock(h: nat, nonceFails: bool)
    | BeginUnlock(h: nat)
    | StepCaller(h: nat, fate: Fate)
    | StepRenewer(r: nat, fate: Fate)
    | TickRenewer(r: nat)
    | CancelContext(ctx: nat)
    | Tick(d: nat)
    | LoseKey

  function Init(expire: int): World {
    World(expire, 0, Free, [], [], [], 0, {}, map[], {})
  }

  predicate Enabled(s: World, step: Step) {
    match step
    case NewHandle => true
    case BeginTryLock(h, _) => h < |s.handles| && s.handles[h].pc.Idle?
    case BeginUnlock(h) => h < |s.handles| && s.handles[h].pc.Idle?
    case StepCaller(h, _) => h < |s.handles| && !s.handles[h].pc.Idle?
    case TickRenewer(r) => r < |s.renewers| && s.renewers[r].pc.Selecting?
    case StepRenewer(r, _) =>
      && r < |s.renewers|
      && !s.renewers[r].pc.Exited?
      && (s.renewers[r].pc.Selecting? ==> s.renewers[r].pc.ctx in s.cancelled)
    case CancelContext(_) => true
    case Tick(_) => true
    case LoseKey => true
  }

  /** The command the server executes in a step, if any. */
  function CommandOf(s: World, step: Step): Option<Command>
    requires Enabled(s, step)
  {
    match step
    case StepCaller(h, fate) =>
      if fate == Dropped then None
      else if s.handles[h].pc.SendSetNx? then Some(SetNx(s.handles[h].pc.nonce))
      else if s.handles[h].pc.SendDelete? then Some(DeleteIfOwner(s.handles[h].pc.nonce))
      else None
    case StepRenewer(r, fate) =>
      if fate != Dropped && s.renewers[r].pc.SendRenew?
      then Some(RenewIfOwner(s.renewers[r].pc.nonce)) else None
    case _ => None
  }

  function NextNow(s: World, step: Step): int {
    if step.Tick? then s.now + step.d else s.now
  }

  function NextKey(s: World, step: Step): Lease
    requires Enabled(s, step)
  {
    var cmd := CommandOf(s, step);
    if cmd.Some? then Execute(s.key, cmd.value, s.now, s.expire)
    else if step.LoseKey? then Free
    else Expired(s.key, NextNow(s, step))
  }

  /** What the client learns from a command sent in a step. */
  function ReplyTo(s: World, cmd: Command, fate: Fate): Reply {
    if fate == Answered then Answer(s.key, cmd) else Failed
  }

  function ResultOfTryLock(nonce: nat, reply: Reply): Result {
    match reply
    case Yes => Locked(nonce)
    case No => LockBusy
    case Failed => LockFailed
  }

  function ResultOfUnlock(nonce: nat, reply: Reply): Result {
    match reply
    case Yes => Unlocked(nonce)
    case No => UnlockExpired
    case Failed => UnlockFailed
  }

  /** The lines of TryLock and Unlock, one action at a time. */
  function NextHandle(s: World, h: nat, step: Step): Handle
    requires Enabled(s, step)
    requires (step.BeginTryLock? || step.BeginUnlock? || step.StepCaller?) && step.h == h
  {
    var l := s.handles[h];
    match step
    case BeginTryLock(_, nonceFails) =>
      if nonceFails then l.(last := LockFailed) else l.(pc := SetContext(|s.drawnBy|))
    case BeginUnlock(_) =>
      // cancel is nil until a TryLock has passed the nonce
      if l.ctx.None? || l.nonce.None? then l.(last := UnlockFailed)
      else l.(pc := SendDelete(l.nonce.value, l.ctx.value))
    case StepCaller(_, fate) =>
      match l.pc
      case Idle => l
      case SetContext(n) => l.(pc := SetNonce(n), ctx := Some(s.contexts))
      case SetNonce(n) => l.(pc := SendSetNx(n), nonce := Some(n))
      case SendSetNx(n) => l.(pc := EndTryLock(n, ReplyTo(s, SetNx(n), fate)))
      case EndTryLock(n, reply) =>
        l.(pc := Idle, last := ResultOfTryLock(n, reply), holds := if reply == Yes then Some(n) else l.holds)
      case SendDelete(n, c) =>
        l.(pc := EndUnlock(n, c, ReplyTo(s, DeleteIfOwner(n), fate)), holds := None)
      case EndUnlock(n, _, reply) => l.(pc := Idle, last := ResultOfUnlock(n, reply))
  }

  function NextRenewer(s: World, r: nat, step: Step): Renewer
    requires Enabled(s, step) && (step.StepRenewer? || step.TickRenewer?) && step.r == r
  {
    var g := s.renewers[r];
    if g.h >= |s.handles| || s.handles[g.h].ctx.None? || s.handles[g.h].nonce.None? then g.(pc := Exited)
    else
      var l := s.handles[g.h];
      if step.TickRenewer? then g.(pc := SendRenew(l.nonce.value))
      else
        match g.pc
        case Starting => g.(pc := Selecting(l.ctx.value))
        case SendRenew(n) => g.(pc := EndRenew(ReplyTo(s, RenewIfOwner(n), step.fate)))
        case EndRenew(reply) => g.(pc := if reply == Yes then Selecting(l.ctx.value) else Exited)
        case _ => g.(pc := Exited)
  }

  function Apply(s: World, step: Step): World
    requires Enabled(s, step)
  {
    var cmd := CommandOf(s, step);
    var wrote := cmd.Some? && Answer(s.key, cmd.value) == Yes;
    var caller := step.BeginTryLock? || step.BeginUnlock? || step.StepCaller?;
    var pc := if step.StepCaller? then s.handles[step.h].pc else Idle;
    s.(now := NextNow(s, step),
       key := NextKey(s, step),
       touched := if wrote && !cmd.value.DeleteIfOwner? then s.touched[cmd.value.nonce := s.now] else s.touched,
       released := if wrote && cmd.value.DeleteIfOwner? then s.released + {cmd.value.nonce} else s.released,
       handles := if caller then s.handles[step.h := NextHandle(s, step.h, step)]
                  else if step.NewHandle? then s.handles + [Handle(Idle, None, None, NotYet, None)]
                  else s.handles,
       renewers := if step.StepRenewer? || step.TickRenewer? then s.renewers[step.r := NextRenewer(s, step.r, step)]
                   else if pc.EndTryLock? && pc.reply == Yes then s.renewers + [Renewer(step.h, Starting)]
                   else s.renewers,
       drawnBy := if step.BeginTryLock? && !step.nonceFails then s.drawnBy + [step.h] else s.drawnBy,
       contexts := if pc.SetContext? then s.contexts + 1 else s.contexts,
       // the deferred cancel runs after the script
       cancelled := if pc.EndUnlock? then s.cancelled + {pc.ctx}
                    else if step.CancelContext? then s.cancelled + {step.ctx} else s.cancelled)
  }

  /** Whole histories; the state after k steps is After(expire, steps[..k]). */
  predicate CanRun(expire: int, steps: seq<Step>)
    decreases |steps|, 0
  {
    steps == []
    || (var front := steps[..|steps| - 1];
        CanRun(expire, front) && Enabled(After(expire, front), steps[|steps| - 1]))
  }

  function After(expire: int, steps: seq<Step>): World
    requires CanRun(expire, steps)
    decreases |steps|, 1
  {
    if steps == [] then Init(expire)
    else Apply(After(expire, steps[..|steps| - 1]), steps[|steps| - 1])
  }
}
