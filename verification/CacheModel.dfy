/** The protected cache read: many concurrent GetWithProtection calls over one Redis store
    whose entries expire, and one singleflight table for each process. Each Redis command, each start and
    end of a loader, and each move in or out of a flight is one step. */
module CacheModel {
  import opened Wrappers

  /** The cached stand-in for an empty value, and how long it lives, in nanoseconds. */
  const EMPTY_CACHE_VALUE: string := "<NIL>"
  const EMPTY_CACHE_TTL: int := 60_000_000_000

  datatype Entry = Entry(value: string, deadline: int)

  datatype Outcome = Value(v: string) | LoaderError

  /** Lead* are the actions of the call that runs the flight's function. `since` is when the
      loader was called, `load` the position of its result in the history of loads. */
  datatype CallPc =
    | FirstGet
    | EnterFlight
    | Join(flight: nat)
    | LeadGet(flight: nat)
    | LeadCall(flight: nat)
    | LeadLoad(flight: nat, since: int)
    | LeadSet(flight: nat, v: string, load: nat)
    | LeadEnd(flight: nat, outcome: Outcome)
    | Returned(outcome: Outcome)

  datatype Call = Call(process: nat, key: string, baseTTL: int, pc: CallPc)

  /** A place in the flight table of a process. */
  datatype Slot = Slot(process: nat, key: string)

  datatype Flight = Flight(slot: Slot, leader: nat, outcome: Option<Outcome>)

  /** History: a loader call that succeeded, when it began and ended, and the time for which
      its result is meant to be cached at least. */
  datatype Load = Load(key: string, begin: int, end: int, ttl: int)

  /** db is what the loader reads: a key that is not there loads as "". faults is history:
      the keys for which Redis failed the double check on a live entry, failed a write or
      dropped an entry before its time. A failed first read is not a fault.
      failed is history: where a loader call has returned an error. */
  datatype World = World(
    db: map<string, string>,
    now: int,
    store: map<string, Entry>,
    inFlight: map<Slot, nat>,
    flights: seq<Flight>,
    calls: seq<Call>,
    loads: seq<Load>,
    faults: set<string>,
    failed: set<Slot>)

  datatype Step =
    | Begin(process: nat, key: string, baseTTL: int)
    | StepCall(c: nat, works: bool, jitter: nat)
    | Tick(d: nat)
    | Evict(key: string)

  function Init(db: map<string, string>): World {
    World(db, 0, map[], map[], [], [], [], {}, {})
  }

  function Loaded(db: map<string, string>, key: string): string {
    if key in db then db[key] else ""
  }

  /** How a value is cached, and how a cached string is read. */
  function Encode(v: string): string {
    if v == "" then EMPTY_CACHE_VALUE else v
  }

  function Decode(cached: string): string {
    if cached == EMPTY_CACHE_VALUE then "" else cached
  }

  function BaseTTL(v: string, baseTTL: int): int {
    if v == "" then EMPTY_CACHE_TTL else baseTTL
  }

  predicate Leads(pc: CallPc) {
    pc.LeadGet? || pc.LeadCall? || pc.LeadLoad? || pc.LeadSet? || pc.LeadEnd?
  }

  predicate Enabled(s: World, step: Step) {
    match step
    // rand.Int63n refuses a bound below one
    case Begin(_, _, baseTTL) => 10 <= baseTTL
    case StepCall(c, _, jitter) =>
      && c < |s.calls|
      && match s.calls[c].pc {
        case Returned(_) => false
        case Join(f) => f < |s.flights| && s.flights[f].outcome.Some?
        case LeadSet(_, _, _) => jitter < s.calls[c].baseTTL / 10
        case _ => true
      }
    case Tick(_) => true
    case Evict(_) => true
  }

  function SlotOf(call: Call): Slot {
    Slot(call.process, call.key)
  }

  /** The control flow of GetWithProtection. */
  function NextPc(s: World, c: nat, works: bool): CallPc
    requires c < |s.calls|
  {
    var key, slot := s.calls[c].key, SlotOf(s.calls[c]);
    match s.calls[c].pc
    case FirstGet =>
      if works && key in s.store then Returned(Value(Decode(s.store[key].value))) else EnterFlight
    case EnterFlight => if slot in s.inFlight then Join(s.inFlight[slot]) else LeadGet(|s.flights|)
    case Join(f) =>
      if f < |s.flights| && s.flights[f].outcome.Some? then Returned(s.flights[f].outcome.value) else Join(f)
    case LeadGet(f) =>
      if works && key in s.store then LeadEnd(f, Value(Decode(s.store[key].value))) else LeadCall(f)
    case LeadCall(f) => LeadLoad(f, s.now)
    case LeadLoad(f, _) =>
      if works then LeadSet(f, Loaded(s.db, key), |s.loads|) else LeadEnd(f, LoaderError)
    case LeadSet(f, v, _) => LeadEnd(f, Value(v))
    case LeadEnd(_, outcome) => Returned(outcome)
    case Returned(outcome) => Returned(outcome)
  }

  function CallNext(s: World, c: nat, works: bool, jitter: nat): World
    requires c < |s.calls|
  {
    var call := s.calls[c];
    var key, slot := call.key, SlotOf(call);
    var pc := NextPc(s, c, works);
    var misread := !works && call.pc.LeadGet? && key in s.store;
    var miswrite := !works && call.pc.LeadSet?;
    s.(calls := s.calls[c := call.(pc := pc)],
       flights := if call.pc.EnterFlight? && pc.LeadGet? then s.flights + [Flight(slot, c, None)]
                  else if call.pc.LeadEnd? && call.pc.flight < |s.flights|
                       then s.flights[call.pc.flight := s.flights[call.pc.flight].(outcome := Some(call.pc.outcome))]
                  else s.flights,
       inFlight := if call.pc.EnterFlight? && pc.LeadGet? then s.inFlight[slot := |s.flights|]
                   else if call.pc.LeadEnd? then s.inFlight - {slot}
                   else s.inFlight,
       store := if call.pc.LeadSet? && works
                then s.store[key := Entry(Encode(call.pc.v),
                       s.now + BaseTTL(call.pc.v, call.baseTTL) + if call.pc.v == "" then 0 else jitter)]
                else s.store,
       loads := if call.pc.LeadLoad? && works
                then s.loads + [Load(key, call.pc.since, s.now, BaseTTL(Loaded(s.db, key), call.baseTTL))]
                else s.loads,
       faults := if misread || miswrite then s.faults + {key} else s.faults,
       failed := if call.pc.LeadLoad? && !works then s.failed + {slot} else s.failed)
  }

  function Apply(s: World, step: Step): World
    requires Enabled(s, step)
  {
    match step
    case Begin(process, key, baseTTL) => s.(calls := s.calls + [Call(process, key, baseTTL, FirstGet)])
    case StepCall(c, works, jitter) => CallNext(s, c, works, jitter)
    case Tick(d) =>
      s.(now := s.now + d,
         store := map k | k in s.store && s.now + d < s.store[k].deadline :: s.store[k])
    case Evict(key) => s.(store := s.store - {key}, faults := s.faults + {key})
  }

  predicate CanRun(db: map<string, string>, steps: seq<Step>)
    decreases |steps|, 0
  {
    steps == []
    || (var front := steps[..|steps| - 1];
        CanRun(db, front) && Enabled(After(db, front), steps[|steps| - 1]))
  }

  function After(db: map<string, string>, steps: seq<Step>): World
    requires CanRun(db, steps)
    decreases |steps|, 1
  {
    if steps == [] then Init(db)
    else Apply(After(db, steps[..|steps| - 1]), steps[|steps| - 1])
  }
}
