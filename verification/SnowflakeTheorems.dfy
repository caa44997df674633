/** IDs of one generator increase, IDs of different machines never meet, and a millisecond
    yields at most 4096 of them. */
module SnowflakeTheorems {
  import opened Bits
  import opened SnowflakeModel

  // ---------- The packed word ----------

  lemma Constants()
    ensures Pow2(10) == 0x400 && Pow2(12) == 0x1000 && Pow2(22) == 0x40_0000
  {
    assert Pow2(5) == 32;
    assert Pow2(10) == 0x400;
    assert Pow2(15) == 0x8000;
    assert Pow2(20) == 0x10_0000;
  }

  lemma OrFields(t: nat, m: nat, s: nat)
    requires m <= MAX_MACHINE_ID && s <= MAX_SEQUENCE
    ensures Or(Or(t * 0x40_0000, m * 0x1000), s) == t * 0x40_0000 + m * 0x1000 + s
  {
    Constants();
    OrDisjoint(t, m * 0x1000, 22);
    OrDisjoint(t * 0x400 + m, s, 12);
  }

  lemma ShiftedWord(x: int)
    ensures Word(x * 0x40_0000) == (x % 0x400_0000_0000) * 0x40_0000
  {
    var q := x / 0x400_0000_0000;
    var r := x % 0x400_0000_0000;
    assert x * 0x40_0000 == q * TWO_TO_THE_64 + r * 0x40_0000;
  }

  /** For every clock reading the fields lie side by side; the timestamp keeps 42 bits. */
  lemma PackedWord(now: int, machineID: nat, sequence: nat)
    requires machineID <= MAX_MACHINE_ID && sequence <= MAX_SEQUENCE
    ensures Pack(now, machineID, sequence)
         == Int64(((now - EPOCH) % 0x400_0000_0000) * 0x40_0000 + machineID * 0x1000 + sequence)
  {
    hide Or;
    ShiftedWord(now - EPOCH);
    OrFields((now - EPOCH) % 0x400_0000_0000, machineID, sequence);
  }

  /** The readings for which 41 bits of timestamp are enough. */
  predicate InEra(now: int) {
    EPOCH <= now < EPOCH + 0x200_0000_0000
  }

  lemma PackInEra(now: int, machineID: nat, sequence: nat)
    requires machineID <= MAX_MACHINE_ID && sequence <= MAX_SEQUENCE && InEra(now)
    ensures Pack(now, machineID, sequence) == (now - EPOCH) * 0x40_0000 + machineID * 0x1000 + sequence
    ensures 0 <= Pack(now, machineID, sequence) < TWO_TO_THE_63
  {
    hide Or;
    PackedWord(now, machineID, sequence);
  }

  /** The sign bit stays clear exactly while the timestamp, which wraps after 42 bits, fits
      in 41. */
  lemma NonNegativeExactly(now: int, machineID: nat, sequence: nat)
    requires machineID <= MAX_MACHINE_ID && sequence <= MAX_SEQUENCE
    ensures 0 <= Pack(now, machineID, sequence) <==> (now - EPOCH) % 0x400_0000_0000 < 0x200_0000_0000
  {
    hide Or;
    PackedWord(now, machineID, sequence);
  }

  lemma Fields(t: nat, m: nat, s: nat)
    requires m <= MAX_MACHINE_ID && s <= MAX_SEQUENCE
    ensures var id := t * 0x40_0000 + m * 0x1000 + s;
            id / 0x40_0000 == t && (id / 0x1000) % 0x400 == m && id % 0x1000 == s
  {
    var id := t * 0x40_0000 + m * 0x1000 + s;
    assert id == (t * 0x400 + m) * 0x1000 + s;
    assert id / 0x1000 == t * 0x400 + m;
  }

  lemma Masks(word: nat)
    ensures And(word, MAX_MACHINE_ID) == word % 0x400 && And(word, MAX_SEQUENCE) == word % 0x1000
  {
    Constants();
    AndMask(word, 10);
    AndMask(word, 12);
  }

  /** Shifting and masking an ID gives back what went in. */
  lemma DecodeRoundTrip(now: int, machineID: nat, sequence: nat)
    requires machineID <= MAX_MACHINE_ID && sequence <= MAX_SEQUENCE && InEra(now)
    ensures var id := Pack(now, machineID, sequence);
            && 0 <= id < TWO_TO_THE_63
            && id / 0x40_0000 + EPOCH == now
            && And(id / 0x1000, MAX_MACHINE_ID) == machineID
            && And(id, MAX_SEQUENCE) == sequence
  {
    PackInEra(now, machineID, sequence);
    var id := Pack(now, machineID, sequence);
    Fields(now - EPOCH, machineID, sequence);
    Masks(id / 0x1000);
    Masks(id);
  }

  // ---------- One call ----------

  /** (t, s) comes before (t', s'). */
  predicate Before(t: int, s: int, t': int, s': int) {
    t < t' || (t == t' && s < s')
  }

  lemma SequenceIncrement(s: nat)
    requires s <= MAX_SEQUENCE
    ensures And(s + 1, MAX_SEQUENCE) == if s == MAX_SEQUENCE then 0 else s + 1
  {
    hide And;
    Constants();
    AndMask(s + 1, 12);
  }

  lemma {:induction false} FirstAfterIsLater(readings: seq<int>, last: int)
    ensures FirstAfter(readings, last) == [] <==> forall i :: 0 <= i < |readings| ==> readings[i] <= last
    ensures FirstAfter(readings, last) != [] ==>
              FirstAfter(readings, last)[0] > last && FirstAfter(readings, last)[0] in readings
  {
    if readings != [] {
      FirstAfterIsLater(readings[1..], last);
      assert readings == [readings[0]] + readings[1..];
    }
  }

  /** A call issues the next sequence number of the same millisecond or number 0 of a later
      one that the clock showed; a refused call changes nothing. */
  lemma OneCall(g: Gen, clock: seq<int>)
    requires Valid(g)
    ensures var (g', result) := NextID(g, clock);
            && Valid(g') && g'.machineID == g.machineID
            && (result == ErrClockBackward ==> g' == g)
            && (result.Issued? ==>
                  && result.id == Pack(g'.lastTime, g'.machineID, g'.sequence)
                  && g'.lastTime in clock
                  && ((g'.lastTime == g.lastTime && g'.sequence == g.sequence + 1)
                      || (g.lastTime < g'.lastTime && g'.sequence == 0)))
  {
    hide And;
    SequenceIncrement(g.sequence);
    if |clock| > 0 {
      FirstAfterIsLater(clock[1..], clock[0]);
    }
    if |clock| > 1 {
      FirstAfterIsLater(clock[2..], clock[1]);
    }
  }

  predicate IsInt64(x: int) {
    -TWO_TO_THE_63 <= x < TWO_TO_THE_63
  }

  /** A call is refused exactly when the clock is behind by more than five milliseconds, or
      still behind after the wait. A distance of 2^63 or more overflows to a negative
      offset, which is then waited for like a small one. */
  lemma RefusedExactly(g: Gen, clock: seq<int>)
    requires Valid(g) && IsInt64(g.lastTime) && forall i :: 0 <= i < |clock| ==> IsInt64(clock[i])
    ensures NextID(g, clock).1 == ErrClockBackward
            <==> clock != [] && clock[0] < g.lastTime
                 && (5 < g.lastTime - clock[0] < TWO_TO_THE_63 || (2 <= |clock| && clock[1] < g.lastTime))
  {
  }

  /** A call in the millisecond of the last stamp issues the next number at once. */
  lemma SameMillisecond(g: Gen, clock: seq<int>)
    requires Valid(g) && clock != [] && clock[0] == g.lastTime && g.sequence < MAX_SEQUENCE
    ensures NextID(g, clock)
         == (g.(sequence := g.sequence + 1), Issued(Pack(g.lastTime, g.machineID, g.sequence + 1)))
  {
    hide And, Pack;
    SequenceIncrement(g.sequence);
  }

  /** A call in a later millisecond issues number 0 at once. */
  lemma LaterMillisecond(g: Gen, clock: seq<int>)
    requires Valid(g) && clock != [] && g.lastTime < clock[0]
    ensures NextID(g, clock)
         == (g.(sequence := 0, lastTime := clock[0]), Issued(Pack(clock[0], g.machineID, 0)))
  {
    hide Pack;
  }

  lemma {:induction false} FirstAfterAt(readings: seq<int>, last: int, k: nat)
    requires k < |readings| && last < readings[k] && forall i :: 0 <= i < k ==> readings[i] <= last
    ensures FirstAfter(readings, last) == [readings[k]]
  {
    if k > 0 {
      FirstAfterAt(readings[1..], last, k - 1);
    }
  }

  /** A call in a millisecond whose numbers are used up issues number 0 at the first later
      reading, and blocks until there is one. */
  lemma FullMillisecond(g: Gen, clock: seq<int>, k: nat)
    requires Valid(g) && clock != [] && clock[0] == g.lastTime && g.sequence == MAX_SEQUENCE
    requires k <= |clock| && forall i :: 0 <= i < k ==> clock[i] <= g.lastTime
    ensures k < |clock| && g.lastTime < clock[k] ==>
              NextID(g, clock) == (g.(sequence := 0, lastTime := clock[k]), Issued(Pack(clock[k], g.machineID, 0)))
    ensures k == |clock| ==> NextID(g, clock) == (g.(sequence := 0), Blocked)
  {
    hide And, Pack;
    SequenceIncrement(g.sequence);
    FirstAfterIsLater(clock[1..], g.lastTime);
    if k < |clock| && g.lastTime < clock[k] {
      FirstAfterAt(clock[1..], g.lastTime, k - 1);
    }
  }

  /** A clock that is behind by five milliseconds at most and has caught up after the wait
      makes no difference. */
  lemma ToleratedRollback(g: Gen, clock: seq<int>)
    requires Valid(g) && 2 <= |clock| && g.lastTime - 5 <= clock[0] < g.lastTime <= clock[1]
    ensures NextID(g, clock) == NextID(g, clock[1..])
  {
    hide And, Pack;
    assert clock[1..][1..] == clock[2..];
  }

  /** Exactly when a call has to wait for the clock: it has no reading, the rollback it
      tolerates is not over, or the millisecond is used up and no later reading has come. */
  lemma BlockedExactly(g: Gen, clock: seq<int>)
    requires Valid(g) && IsInt64(g.lastTime) && forall i :: 0 <= i < |clock| ==> IsInt64(clock[i])
    ensures NextID(g, clock).1 == Blocked
            <==> || clock == []
                 || (|clock| == 1 && clock[0] < g.lastTime
                     && !(5 < g.lastTime - clock[0] < TWO_TO_THE_63))
                 || (g.sequence == MAX_SEQUENCE && clock[0] == g.lastTime
                     && forall i :: 0 <= i < |clock| ==> clock[i] <= g.lastTime)
                 || (g.sequence == MAX_SEQUENCE && 2 <= |clock| && clock[0] < g.lastTime
                     && !(5 < g.lastTime - clock[0] < TWO_TO_THE_63) && clock[1] == g.lastTime
                     && forall i :: 0 <= i < |clock| ==> clock[i] <= g.lastTime)
  {
    hide And, Pack;
    SequenceIncrement(g.sequence);
    if |clock| > 0 {
      FirstAfterIsLater(clock[1..], clock[0]);
      assert clock == [clock[0]] + clock[1..];
    }
    if |clock| > 1 {
      FirstAfterIsLater(clock[2..], clock[1]);
      assert clock == [clock[0], clock[1]] + clock[2..];
    }
  }

  // ---------- Histories of one generator ----------

  datatype Ticket = Ticket(time: int, sequence: int, machineID: int, id: int)

  function TicketOf(g: Gen, id: int): Ticket {
    Ticket(g.lastTime, g.sequence, g.machineID, id)
  }

  predicate ReadingsInEra(clock: seq<int>) {
    forall i :: 0 <= i < |clock| ==> InEra(clock[i])
  }

  predicate CallsInEra(calls: seq<seq<int>>) {
    forall i :: 0 <= i < |calls| ==> ReadingsInEra(calls[i])
  }

  /** The tickets issued by successive calls, failed ones included; a blocked call is the
      last. */
  function Tickets(g: Gen, calls: seq<seq<int>>): seq<Ticket>
    requires Valid(g)
    decreases |calls|
  {
    if calls == [] then []
    else
      OneCall(g, calls[0]);
      var (g', result) := NextID(g, calls[0]);
      if result.Issued? then [TicketOf(g', result.id)] + Tickets(g', calls[1..])
      else if result == Blocked then []
      else Tickets(g', calls[1..])
  }

  /** Each ticket continues where the one before it, or the generator, stands. */
  predicate Follows(t: int, s: int, next: Ticket) {
    (next.time == t && next.sequence == s + 1) || (t < next.time && next.sequence == 0)
  }

  /** The ID is the packed stamp of machine m. */
  predicate Stamped(m: int, ticket: Ticket) {
    && ticket.machineID == m && 0 <= m <= MAX_MACHINE_ID
    && 0 <= ticket.sequence <= MAX_SEQUENCE
    && ticket.id == Pack(ticket.time, ticket.machineID, ticket.sequence)
  }

  predicate WellFormed(m: int, ticket: Ticket) {
    Stamped(m, ticket) && InEra(ticket.time)
  }

  predicate CallsWithin(calls: seq<seq<int>>, start: int, end: int) {
    forall c, i :: 0 <= c < |calls| && 0 <= i < |calls[c]| ==> start <= calls[c][i] < end
  }

  /** The stamps of a generator continue each other and come from its clock. */
  lemma {:induction false} TicketsWithin(g: Gen, calls: seq<seq<int>>, start: int, end: int)
    requires Valid(g) && CallsWithin(calls, start, end)
    ensures var log := Tickets(g, calls);
            && (forall i :: 0 <= i < |log| ==> Stamped(g.machineID, log[i]) && start <= log[i].time < end)
            && (log != [] ==> Follows(g.lastTime, g.sequence, log[0]))
            && (forall i :: 0 < i < |log| ==> Follows(log[i - 1].time, log[i - 1].sequence, log[i]))
    decreases |calls|
  {
    if calls != [] {
      OneCall(g, calls[0]);
      var (g', result) := NextID(g, calls[0]);
      assert forall c :: 0 <= c < |calls[1..]| ==> calls[1..][c] == calls[c + 1];
      if result != Blocked {
        TicketsWithin(g', calls[1..], start, end);
      }
      if result.Issued? {
        assert start <= g'.lastTime < end by {
          var i :| 0 <= i < |calls[0]| && calls[0][i] == g'.lastTime;
        }
      }
    }
  }

  lemma TicketsChain(g: Gen, calls: seq<seq<int>>)
    requires Valid(g) && CallsInEra(calls)
    ensures var log := Tickets(g, calls);
            && (forall i :: 0 <= i < |log| ==> WellFormed(g.machineID, log[i]))
            && (log != [] ==> Follows(g.lastTime, g.sequence, log[0]))
            && (forall i :: 0 < i < |log| ==> Follows(log[i - 1].time, log[i - 1].sequence, log[i]))
  {
    assert forall c, i :: 0 <= c < |calls| && 0 <= i < |calls[c]| ==> ReadingsInEra(calls[c]) && InEra(calls[c][i]);
    TicketsWithin(g, calls, EPOCH, EPOCH + 0x200_0000_0000);
  }

  lemma {:induction false} ChainIsOrdered(log: seq<Ticket>, i: nat, j: nat)
    requires i < j < |log|
    requires forall k :: 0 < k < |log| ==> Follows(log[k - 1].time, log[k - 1].sequence, log[k])
    ensures Before(log[i].time, log[i].sequence, log[j].time, log[j].sequence)
    decreases j - i
  {
    assert Follows(log[j - 1].time, log[j - 1].sequence, log[j]);
    if i < j - 1 {
      ChainIsOrdered(log, i, j - 1);
    }
  }

  lemma PackIncreases(m: nat, t: int, s: nat, t': int, s': nat)
    requires m <= MAX_MACHINE_ID && s <= MAX_SEQUENCE && s' <= MAX_SEQUENCE
    requires InEra(t) && InEra(t') && Before(t, s, t', s')
    ensures Pack(t, m, s) < Pack(t', m, s')
  {
    PackInEra(t, m, s);
    PackInEra(t', m, s');
  }

  /** Whatever the clock does inside the era, backward jumps included, the IDs of one
      generator strictly increase and are non-negative int64. */
  lemma IdsIncrease(g: Gen, calls: seq<seq<int>>)
    requires Valid(g) && CallsInEra(calls)
    ensures var log := Tickets(g, calls);
            && (forall i, j :: 0 <= i < j < |log| ==> log[i].id < log[j].id)
            && (forall i :: 0 <= i < |log| ==> 0 <= log[i].id < TWO_TO_THE_63)
  {
    var log := Tickets(g, calls);
    TicketsChain(g, calls);
    forall i, j | 0 <= i < j < |log| ensures log[i].id < log[j].id {
      ChainIsOrdered(log, i, j);
      PackIncreases(g.machineID, log[i].time, log[i].sequence, log[j].time, log[j].sequence);
    }
    forall i | 0 <= i < |log| ensures 0 <= log[i].id < TWO_TO_THE_63 {
      PackInEra(log[i].time, log[i].machineID, log[i].sequence);
    }
  }

  /** The era matters: one millisecond past it the next ID is negative. */
  lemma EraEnds()
    ensures Pack(EPOCH + 0x200_0000_0000, 0, 0) < 0 < Pack(EPOCH + 0x1ff_ffff_ffff, 0, 0)
  {
    hide Or;
    PackedWord(EPOCH + 0x200_0000_0000, 0, 0);
    PackInEra(EPOCH + 0x1ff_ffff_ffff, 0, 0);
  }

  // ---------- Capacity ----------

  /** What NewGenerator returns. */
  function Fresh(machineID: int): Gen {
    Gen(machineID, 0, 0)
  }

  /** The successive stamps of a generator that has issued nothing before. */
  predicate Chain(log: seq<Ticket>) {
    && (log != [] ==> log[0].sequence == 0)
    && (forall i :: 0 <= i < |log| ==> 0 <= log[i].sequence <= MAX_SEQUENCE)
    && (forall i :: 0 < i < |log| ==> Follows(log[i - 1].time, log[i - 1].sequence, log[i]))
  }

  lemma FreshChain(machineID: int, calls: seq<seq<int>>)
    requires 0 <= machineID <= MAX_MACHINE_ID && CallsInEra(calls)
    ensures Chain(Tickets(Fresh(machineID), calls))
  {
    TicketsChain(Fresh(machineID), calls);
  }

  lemma {:induction false} ChainPrefix(log: seq<Ticket>, i: nat)
    requires Chain(log) && i < |log|
    ensures var s := log[i].sequence;
            && s <= i
            && (forall j :: i - s <= j <= i ==> log[j].time == log[i].time && log[j].sequence == j - (i - s))
            && (forall k :: 0 <= k < i - s ==> log[k].time < log[i].time)
    decreases i
  {
    if i > 0 {
      ChainPrefix(log, i - 1);
      assert Follows(log[i - 1].time, log[i - 1].sequence, log[i]);
    }
  }

  /** The tickets of a millisecond are numbered 0, 1, 2, ... in the order of issue: the
      ticket with number s comes right after those numbered 0 to s - 1, and everything
      before these belongs to an earlier millisecond. */
  lemma SequencePrefix(machineID: int, calls: seq<seq<int>>, i: nat)
    requires 0 <= machineID <= MAX_MACHINE_ID && CallsInEra(calls)
    requires i < |Tickets(Fresh(machineID), calls)|
    ensures var log := Tickets(Fresh(machineID), calls);
            var s := log[i].sequence;
            && 0 <= s <= i && s <= MAX_SEQUENCE
            && (forall j :: i - s <= j <= i ==> log[j].time == log[i].time && log[j].sequence == j - (i - s))
            && (forall k :: 0 <= k < i - s ==> log[k].time < log[i].time)
  {
    FreshChain(machineID, calls);
    ChainPrefix(Tickets(Fresh(machineID), calls), i);
  }

  function Times(log: seq<Ticket>): set<int> {
    set i | 0 <= i < |log| :: log[i].time
  }

  /** n IDs take at least n / 4096 distinct milliseconds, rounded up. */
  lemma Capacity(machineID: int, calls: seq<seq<int>>)
    requires 0 <= machineID <= MAX_MACHINE_ID && CallsInEra(calls)
    ensures var log := Tickets(Fresh(machineID), calls);
            |log| <= (MAX_SEQUENCE + 1) * |Times(log)|
  {
    FreshChain(machineID, calls);
    if Tickets(Fresh(machineID), calls) != [] {
      ChainCapacity(Tickets(Fresh(machineID), calls));
    }
  }

  /** A ticket with number 0 opens a new millisecond, any other stays in the last one. */
  lemma TimesGrow(log: seq<Ticket>)
    requires Chain(log) && 1 < |log|
    ensures var front := log[..|log| - 1];
            |Times(log)| == |Times(front)| + if log[|log| - 1].sequence == 0 then 1 else 0
  {
    var n := |log| - 1;
    var front, last := log[..n], log[n];
    assert log == front + [last];
    TimesAppend(front, last);
    assert Follows(log[n - 1].time, log[n - 1].sequence, last);
    assert front[n - 1].time in Times(front);
    if last.sequence == 0 {
      ChainPrefix(log, n);
      assert last.time !in Times(front);
    } else {
      assert Times(log) == Times(front);
    }
  }

  /** All milliseconds but the last may be used up; the last holds the numbers seen so far. */
  lemma {:induction false} ChainCapacity(log: seq<Ticket>)
    requires Chain(log) && log != []
    ensures |log| <= (MAX_SEQUENCE + 1) * (|Times(log)| - 1) + log[|log| - 1].sequence + 1
  {
    if |log| == 1 {
      assert Times(log) == {log[0].time};
    } else {
      var n := |log| - 1;
      TimesGrow(log);
      ChainCapacity(log[..n]);
      assert Follows(log[n - 1].time, log[n - 1].sequence, log[n]);
    }
  }

  lemma TimesAppend(log: seq<Ticket>, ticket: Ticket)
    ensures Times(log + [ticket]) == Times(log) + {ticket.time}
  {
    var longer := log + [ticket];
    forall t | t in Times(log) + {ticket.time} ensures t in Times(longer) {
      if t == ticket.time {
        assert longer[|log|] == ticket;
      } else {
        var i :| 0 <= i < |log| && log[i].time == t;
        assert longer[i].time == t;
      }
    }
    forall t | t in Times(longer) ensures t in Times(log) + {ticket.time} {
      var i :| 0 <= i < |longer| && longer[i].time == t;
      if i < |log| {
        assert log[i].time == t;
      }
    }
  }

  // ---------- Many generators ----------

  /** A call to the generator of one machine. */
  datatype Event = Event(machineID: int, clock: seq<int>)

  /** Generators by machine ID, and every ticket issued so far. */
  datatype Fleet = Fleet(gens: map<int, Gen>, log: seq<Ticket>)

  predicate FleetValid(f: Fleet) {
    forall m :: m in f.gens ==> Valid(f.gens[m]) && f.gens[m].machineID == m
  }

  /** Calls to different generators interleave; each runs under its generator's mutex. */
  function FleetStep(f: Fleet, e: Event): (f': Fleet)
    requires FleetValid(f)
    ensures FleetValid(f') && f'.gens.Keys == f.gens.Keys
  {
    if e.machineID !in f.gens then f
    else
      OneCall(f.gens[e.machineID], e.clock);
      var (g', result) := NextID(f.gens[e.machineID], e.clock);
      // a call that blocks keeps the mutex; what others do meanwhile is unaffected
      if result == Blocked then f
      else Fleet(f.gens[e.machineID := g'], if result.Issued? then f.log + [TicketOf(g', result.id)] else f.log)
  }

  function FleetRun(f: Fleet, events: seq<Event>): (f': Fleet)
    requires FleetValid(f)
    ensures FleetValid(f')
    decreases |events|
  {
    if events == [] then f else FleetRun(FleetStep(f, events[0]), events[1..])
  }

  /** A stretch of time, anywhere, that 42 bits can tell apart. */
  predicate InWindow(start: int, now: int) {
    start <= now < start + 0x400_0000_0000
  }

  predicate ReadingsWithin(events: seq<Event>, start: int, end: int) {
    forall e, i :: 0 <= e < |events| && 0 <= i < |events[e].clock| ==> start <= events[e].clock[i] < end
  }

  /** Every ticket is at or before the point its generator has reached, and no ID is there
      twice. */
  ghost predicate FleetInv(f: Fleet, start: int) {
    && FleetValid(f)
    && (forall i :: 0 <= i < |f.log| ==>
          var e := f.log[i];
          && e.machineID in f.gens && Stamped(e.machineID, e) && InWindow(start, e.time)
          && !Before(f.gens[e.machineID].lastTime, f.gens[e.machineID].sequence, e.time, e.sequence))
    && (forall i, j :: 0 <= i < j < |f.log| ==> f.log[i].id != f.log[j].id)
  }

  lemma FleetStepKeeps(f: Fleet, e: Event, start: int)
    requires FleetInv(f, start)
    requires forall i :: 0 <= i < |e.clock| ==> InWindow(start, e.clock[i])
    ensures FleetInv(FleetStep(f, e), start)
  {
    if e.machineID in f.gens {
      var g := f.gens[e.machineID];
      OneCall(g, e.clock);
      var (g', result) := NextID(g, e.clock);
      if result.Issued? {
        var ticket := TicketOf(g', result.id);
        assert InWindow(start, g'.lastTime) by {
          var i :| 0 <= i < |e.clock| && e.clock[i] == g'.lastTime;
        }
        forall i | 0 <= i < |f.log| ensures f.log[i].id != ticket.id {
          DistinctTickets(f.log[i], ticket, start);
        }
      }
    }
  }

  lemma DistinctTickets(a: Ticket, b: Ticket, start: int)
    requires Stamped(a.machineID, a) && Stamped(b.machineID, b)
    requires InWindow(start, a.time) && InWindow(start, b.time)
    requires (a.machineID, a.time, a.sequence) != (b.machineID, b.time, b.sequence)
    ensures a.id != b.id
  {
    hide Pack, Int64, Or, Word, Stamp42, Layout;
    PackedLayout(a.time, a.machineID, a.sequence);
    PackedLayout(b.time, b.machineID, b.sequence);
    var t, t' := Stamp42(a.time), Stamp42(b.time);
    if a.time != b.time {
      WindowTells(start, a.time, b.time);
    }
    LayoutTells(t, a.machineID, a.sequence, t', b.machineID, b.sequence);
    Int64Tells(Layout(t, a.machineID, a.sequence), Layout(t', b.machineID, b.sequence));
  }

  /** What 42 bits keep of a clock reading. */
  function Stamp42(now: int): nat {
    (now - EPOCH) % 0x400_0000_0000
  }

  function Layout(t: nat, m: nat, s: nat): nat {
    t * 0x40_0000 + m * 0x1000 + s
  }

  lemma PackedLayout(now: int, m: nat, s: nat)
    requires m <= MAX_MACHINE_ID && s <= MAX_SEQUENCE
    ensures Pack(now, m, s) == Int64(Layout(Stamp42(now), m, s)) && Stamp42(now) < 0x400_0000_0000
  {
    hide Pack, Int64, Or, Word;
    PackedWord(now, m, s);
  }

  lemma WindowTells(start: int, a: int, b: int)
    requires InWindow(start, a) && InWindow(start, b) && a != b
    ensures Stamp42(a) != Stamp42(b)
  {
  }

  lemma LayoutTells(t: nat, m: nat, s: nat, t': nat, m': nat, s': nat)
    requires m <= MAX_MACHINE_ID && s <= MAX_SEQUENCE && m' <= MAX_MACHINE_ID && s' <= MAX_SEQUENCE
    requires t < 0x400_0000_0000 && t' < 0x400_0000_0000
    ensures 0 <= Layout(t, m, s) < TWO_TO_THE_64
    ensures 0 <= Layout(t', m', s') < TWO_TO_THE_64
    ensures Layout(t, m, s) == Layout(t', m', s') ==> t == t' && m == m' && s == s'
  {
  }

  lemma Int64Tells(x: nat, y: nat)
    requires x < TWO_TO_THE_64 && y < TWO_TO_THE_64
    ensures Int64(x) == Int64(y) ==> x == y
  {
  }

  lemma {:induction false} FleetRunKeeps(f: Fleet, events: seq<Event>, start: int)
    requires FleetInv(f, start) && ReadingsWithin(events, start, start + 0x400_0000_0000)
    ensures FleetInv(FleetRun(f, events), start)
    decreases |events|
  {
    if events != [] {
      forall i | 0 <= i < |events[0].clock| ensures InWindow(start, events[0].clock[i]) {
      }
      assert forall e :: 0 <= e < |events[1..]| ==> events[1..][e] == events[e + 1];
      FleetStepKeeps(f, events[0], start);
      FleetRunKeeps(FleetStep(f, events[0]), events[1..], start);
    }
  }

  predicate AllDistinct(log: seq<Ticket>) {
    forall i, j :: 0 <= i < j < |log| ==> log[i].id != log[j].id
  }

  /** IDs are globally unique: generators with different machine IDs, in whatever state and
      called in any interleaving with any clocks inside one window of 2^42 milliseconds,
      before the epoch and beyond the era included, never issue an ID twice. Inside the era
      the IDs are non-negative as well. */
  lemma GloballyUnique(gens: map<int, Gen>, events: seq<Event>, start: int)
    requires FleetValid(Fleet(gens, [])) && ReadingsWithin(events, start, start + 0x400_0000_0000)
    ensures var log := FleetRun(Fleet(gens, []), events).log;
            && AllDistinct(log)
            && (forall i :: 0 <= i < |log| && InEra(log[i].time) ==> 0 <= log[i].id < TWO_TO_THE_63)
            && (forall i :: 0 <= i < |log| ==> InWindow(start, log[i].time))
  {
    FleetRunKeeps(Fleet(gens, []), events, start);
    var log := FleetRun(Fleet(gens, []), events).log;
    forall i | 0 <= i < |log| && InEra(log[i].time) ensures 0 <= log[i].id < TWO_TO_THE_63 {
      PackInEra(log[i].time, log[i].machineID, log[i].sequence);
    }
  }

  /** One call to a generator whose last stamp is earlier. */
  lemma IssueAt(f: Fleet, now: int)
    requires FleetValid(f) && 0 in f.gens && f.gens[0].lastTime < now
    ensures var f' := FleetStep(f, Event(0, [now]));
            && 0 in f'.gens && f'.gens[0].lastTime == now
            && f'.log == f.log + [Ticket(now, 0, 0, Pack(now, 0, 0))]
  {
  }

  lemma StampRepeats(now: int)
    ensures Stamp42(now) == Stamp42(now + 0x400_0000_0000)
  {
    assert now + 0x400_0000_0000 - EPOCH == (now - EPOCH) + 0x400_0000_0000;
  }

  lemma PackRepeats(now: int)
    ensures Pack(now, 0, 0) == Pack(now + 0x400_0000_0000, 0, 0)
  {
    hide Pack, Int64, Or, Word, Stamp42, Layout;
    PackedLayout(now, 0, 0);
    PackedLayout(now + 0x400_0000_0000, 0, 0);
    StampRepeats(now);
  }

  /** 2^42 milliseconds later the same ID comes again. */
  lemma WindowWraps(start: int) returns (events: seq<Event>)
    ensures ReadingsWithin(events, start, start + 0x400_0000_0001)
    ensures !AllDistinct(FleetRun(Fleet(map[0 := Gen(0, 0, start - 1)], []), events).log)
  {
    hide Pack;
    var first, second := Event(0, [start]), Event(0, [start + 0x400_0000_0000]);
    events := [first, second];
    var f := Fleet(map[0 := Gen(0, 0, start - 1)], []);
    IssueAt(f, start);
    var f1 := FleetStep(f, first);
    IssueAt(f1, start + 0x400_0000_0000);
    var f2 := FleetStep(f1, second);
    assert FleetRun(f, events) == FleetRun(f1, [second]) == FleetRun(f2, []) == f2;
    PackRepeats(start);
    assert f2.log[0].id == f2.log[1].id;
  }

  /** Exactly how wide a stretch of time may be for all fleets to stay unique within it,
      wherever it starts: 2^42 milliseconds. */
  lemma UniqueExactly(start: int, width: nat)
    ensures (forall gens: map<int, Gen>, events: seq<Event> ::
               FleetValid(Fleet(gens, [])) && ReadingsWithin(events, start, start + width) ==>
                 AllDistinct(FleetRun(Fleet(gens, []), events).log))
            <==> width <= 0x400_0000_0000
  {
    hide FleetRun, AllDistinct;
    if width <= 0x400_0000_0000 {
      forall gens: map<int, Gen>, events: seq<Event> |
        FleetValid(Fleet(gens, [])) && ReadingsWithin(events, start, start + width)
        ensures AllDistinct(FleetRun(Fleet(gens, []), events).log)
      {
        GloballyUnique(gens, events, start);
      }
    } else {
      var events := WindowWraps(start);
      assert FleetValid(Fleet(map[0 := Gen(0, 0, start - 1)], []));
      assert ReadingsWithin(events, start, start + width);
    }
  }
}
