/** The Snowflake generator: what a call to NextID does, as a function of the clock
    readings it gets, and what follows for whole histories of calls. */
module SnowflakeModel {
  import opened Bits

  const EPOCH: int := 1767225600000
  const MAX_MACHINE_ID: int := 1023
  const MAX_SEQUENCE: int := 4095

  /** The fields of a Generator. */
  datatype Gen = Gen(machineID: int, sequence: int, lastTime: int)

  /** Blocked: the clock readings ran out while the call sleeps or spins; it still holds
      the mutex, so no other call gets in. */
  datatype Result = Issued(id: int) | ErrClockBackward | Blocked

  predicate Valid(g: Gen) {
    0 <= g.machineID <= MAX_MACHINE_ID && 0 <= g.sequence <= MAX_SEQUENCE
  }

  /** The expression that assembles an ID, on 64-bit words. */
  function Pack(now: int, machineID: nat, sequence: nat): int {
    Int64(Or(Or(Word((now - EPOCH) * 0x40_0000), Word(machineID * 0x1000)), sequence))
  }

  /** The first reading later than last, which is what waitNextMilli spins for. */
  function FirstAfter(readings: seq<int>, last: int): seq<int> {
    if readings == [] then []
    else if readings[0] > last then [readings[0]]
    else FirstAfter(readings[1..], last)
  }

  function Issue(g: Gen, now: int, sequence: int): (Gen, Result)
    requires 0 <= g.machineID && 0 <= sequence
  {
    (g.(sequence := sequence, lastTime := now), Issued(Pack(now, g.machineID, sequence)))
  }

  function Stamp(g: Gen, now: int, spin: seq<int>): (Gen, Result)
    requires Valid(g)
  {
    if now == g.lastTime then
      var next := And(g.sequence + 1, MAX_SEQUENCE);
      if next != 0 then Issue(g, now, next)
      else
        var later := FirstAfter(spin, now);
        if later == [] then (g.(sequence := 0), Blocked) else Issue(g, later[0], 0)
    else Issue(g, now, 0)
  }

  /** One call to NextID; `clock` is what time.Now returns during it. */
  function NextID(g: Gen, clock: seq<int>): (Gen, Result)
    requires Valid(g)
  {
    if clock == [] then (g, Blocked)
    else if clock[0] >= g.lastTime then Stamp(g, clock[0], clock[1..])
    else if Int64(g.lastTime - clock[0]) > 5 then (g, ErrClockBackward)
    else if |clock| == 1 then (g, Blocked)
    else if clock[1] < g.lastTime then (g, ErrClockBackward)
    else Stamp(g, clock[1], clock[2..])
  }
}
