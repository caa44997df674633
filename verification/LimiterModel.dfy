/** The per-IP rate limiter: token buckets in a table that a cleanup pass thins out. The
    three actions of AllowIP and the two of the cleanup interleave freely. */
module LimiterModel {

  // Time is in nanoseconds and a token is the ten million of them in which a rate of 100 a
  // second earns it, so a bucket gains one unit a nanosecond.
  const TOKEN: int := 10_000_000
  const BURST: int := 200 * TOKEN
  const IDLE_LIMIT: int := 600_000_000_000
  const SECOND: int := 1_000_000_000

  datatype Bucket = Bucket(tokens: int, last: int)

  function Min(a: int, b: int): int {
    if a < b then a else b
  }

  function Refill(b: Bucket, now: int): int {
    Min(b.tokens + (now - b.last), BURST)
  }

  predicate IsFull(b: Bucket, now: int) {
    Refill(b, now) == BURST
  }

  predicate HasToken(b: Bucket, now: int) {
    TOKEN <= Refill(b, now)
  }

  /** The bucket after Allow, whatever it answers. */
  function AfterAllow(b: Bucket, now: int): Bucket {
    Bucket(if HasToken(b, now) then Refill(b, now) - TOKEN else Refill(b, now), now)
  }

  function NewBucket(now: int): Bucket {
    Bucket(BURST, now)
  }

  /** An ipLimiterEntry; `ip` records for whom it was made. */
  datatype Entry = Entry(ip: string, bucket: Bucket, lastSeen: int)

  /** The actions of AllowIP: LoadOrStore, the write of lastSeen at time `stamp`, Allow.
      `plain` is the answer of a limiter that never cleans up. */
  datatype CallPc =
    | LoadOrStore
    | StampSeen(entry: nat)
    | TakeToken(entry: nat, stamp: int)
    | Answered(allowed: bool, plain: bool)

  datatype Call = Call(ip: string, pc: CallPc)

  /** entries are the objects ever made, table is the map from IP to entry. passTime is the
      time at which the running cleanup pass began and doomed what it has found expired.
      plain is history: the buckets of a limiter that never cleans up and gets the same
      calls of Allow. */
  datatype Limiter = Limiter(
    now: int,
    entries: seq<Entry>,
    table: map<string, nat>,
    calls: seq<Call>,
    passTime: int,
    doomed: set<string>,
    plain: map<string, Bucket>)

  datatype Step =
    | Arrive(ip: string)
    | StepCall(c: nat)
    | StartPass
    | Judge(ip: string)
    | Remove(ip: string)
    | Tick(d: nat)

  function Init(): Limiter {
    Limiter(0, [], map[], [], 0, {}, map[])
  }

  predicate Expired(s: Limiter, ip: string) {
    && ip in s.table
    && s.table[ip] < |s.entries|
    && s.passTime - s.entries[s.table[ip]].lastSeen > IDLE_LIMIT
  }

  predicate Enabled(s: Limiter, step: Step) {
    match step
    case StepCall(c) =>
      && c < |s.calls|
      && match s.calls[c].pc {
        case LoadOrStore => true
        case StampSeen(e) => e < |s.entries|
        case TakeToken(e, _) => e < |s.entries|
        case Answered(_, _) => false
      }
    case Remove(ip) => ip in s.doomed
    case _ => true
  }

  function PlainBucket(s: Limiter, ip: string): Bucket {
    if ip in s.plain then s.plain[ip] else NewBucket(s.now)
  }

  function CallNext(s: Limiter, c: nat): Limiter
    requires Enabled(s, StepCall(c))
  {
    var ip := s.calls[c].ip;
    match s.calls[c].pc
    case LoadOrStore =>
      if ip in s.table then s.(calls := s.calls[c := Call(ip, StampSeen(s.table[ip]))])
      else
        s.(calls := s.calls[c := Call(ip, StampSeen(|s.entries|))],
           entries := s.entries + [Entry(ip, NewBucket(s.now), s.now)],
           table := s.table[ip := |s.entries|])
    case StampSeen(e) =>
      s.(calls := s.calls[c := Call(ip, TakeToken(e, s.now))],
         entries := s.entries[e := s.entries[e].(lastSeen := s.now)])
    case TakeToken(e, _) =>
      var b, p := s.entries[e].bucket, PlainBucket(s, ip);
      s.(calls := s.calls[c := Call(ip, Answered(HasToken(b, s.now), HasToken(p, s.now)))],
         entries := s.entries[e := s.entries[e].(bucket := AfterAllow(b, s.now))],
         plain := s.plain[ip := AfterAllow(p, s.now)])
  }

  function Apply(s: Limiter, step: Step): Limiter
    requires Enabled(s, step)
  {
    match step
    case Arrive(ip) => s.(calls := s.calls + [Call(ip, LoadOrStore)])
    case StepCall(c) => CallNext(s, c)
    case StartPass => s.(passTime := s.now, doomed := {})
    case Judge(ip) => if Expired(s, ip) then s.(doomed := s.doomed + {ip}) else s
    case Remove(ip) => s.(table := s.table - {ip}, doomed := s.doomed - {ip})
    case Tick(d) => s.(now := s.now + d)
  }

  predicate CanRun(steps: seq<Step>)
    decreases |steps|, 0
  {
    steps == []
    || (CanRun(steps[..|steps| - 1]) && Enabled(After(steps[..|steps| - 1]), steps[|steps| - 1]))
  }

  function After(steps: seq<Step>): Limiter
    requires CanRun(steps)
    decreases |steps|, 1
  {
    if steps == [] then Init() else Apply(After(steps[..|steps| - 1]), steps[|steps| - 1])
  }

  // ---------- Which runs the eviction is meant for ----------

  predicate Holds(pc: CallPc, e: nat) {
    (pc.StampSeen? || pc.TakeToken?) && pc.entry == e
  }

  predicate Held(s: Limiter, e: nat) {
    exists c :: 0 <= c < |s.calls| && Holds(s.calls[c].pc, e)
  }

  /** A removal is harmless if the bucket that goes is full and no call is between
      LoadOrStore and Allow with it. */
  predicate HarmlessRemoval(s: Limiter, step: Step) {
    step.Remove? && step.ip in s.table && s.table[step.ip] < |s.entries| ==>
      IsFull(s.entries[s.table[step.ip]].bucket, s.now) && !Held(s, s.table[step.ip])
  }

  /** A removal is quiet if the entry is still expired and no call holds it. */
  predicate QuietRemoval(s: Limiter, step: Step) {
    step.Remove? && step.ip in s.table ==> Expired(s, step.ip) && !Held(s, s.table[step.ip])
  }

  /** A call is prompt if its Allow comes at most `slack` after it wrote lastSeen. */
  predicate PromptTake(s: Limiter, step: Step, slack: int)
    requires Enabled(s, step)
  {
    step.StepCall? && s.calls[step.c].pc.TakeToken? ==> s.now - s.calls[step.c].pc.stamp <= slack
  }

  /** The removals from step number `from` on are harmless. */
  predicate HarmlessFrom(steps: seq<Step>, from: nat)
    requires CanRun(steps)
    decreases |steps|
  {
    |steps| <= from
    || (HarmlessFrom(steps[..|steps| - 1], from)
        && HarmlessRemoval(After(steps[..|steps| - 1]), steps[|steps| - 1]))
  }

  predicate Harmless(steps: seq<Step>)
    requires CanRun(steps)
  {
    HarmlessFrom(steps, 0)
  }

  predicate Quiet(steps: seq<Step>)
    requires CanRun(steps)
    decreases |steps|
  {
    steps == []
    || (Quiet(steps[..|steps| - 1]) && QuietRemoval(After(steps[..|steps| - 1]), steps[|steps| - 1]))
  }

  predicate Prompt(steps: seq<Step>, slack: int)
    requires CanRun(steps)
    decreases |steps|
  {
    steps == []
    || (Prompt(steps[..|steps| - 1], slack)
        && PromptTake(After(steps[..|steps| - 1]), steps[|steps| - 1], slack))
  }
}
