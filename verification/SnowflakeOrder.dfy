/** How long IDs keep increasing, and when a generator may be started anew. */
module SnowflakeOrder {
  import opened Bits
  import opened SnowflakeModel
  import opened SnowflakeTheorems

  // ---------- Signed stamps ----------

  const HALF: int := 0x200_0000_0000
  const SPAN: int := 0x400_0000_0000

  /** The number of times the stamp has jumped from its largest value to its smallest. */
  function Turns(now: int): int {
    (now - EPOCH + HALF) / SPAN
  }

  /** The 42 bits of the timestamp, the topmost taken as the sign. */
  function SignedStamp(now: int): int {
    (now - EPOCH + HALF) % SPAN - HALF
  }

  lemma StampAndTurns(now: int)
    ensures now - EPOCH == Turns(now) * SPAN + SignedStamp(now)
    ensures -HALF <= SignedStamp(now) < HALF
  {
  }

  lemma SignedFromStamp(now: int)
    ensures SignedStamp(now) == if Stamp42(now) < HALF then Stamp42(now) else Stamp42(now) - SPAN
  {
  }

  lemma SignedLayout(t: nat, m: nat, s: nat)
    requires t < SPAN && m <= MAX_MACHINE_ID && s <= MAX_SEQUENCE
    ensures Int64(Layout(t, m, s)) == (if t < HALF then t else t - SPAN) * 0x40_0000 + m * 0x1000 + s
  {
  }

  /** For every clock reading the ID is the signed stamp, the machine and the number. */
  lemma PackedSigned(now: int, m: nat, s: nat)
    requires m <= MAX_MACHINE_ID && s <= MAX_SEQUENCE
    ensures Pack(now, m, s) == SignedStamp(now) * 0x40_0000 + m * 0x1000 + s
  {
    hide Pack, Int64, Or, Word, Stamp42, Layout, SignedStamp;
    PackedLayout(now, m, s);
    SignedLayout(Stamp42(now), m, s);
    SignedFromStamp(now);
  }

  // ---------- Increasing IDs ----------

  predicate Increasing(log: seq<Ticket>) {
    forall i, j :: 0 <= i < j < |log| ==> log[i].id < log[j].id
  }

  lemma TurnsGrow(start: int, now: int, end: int)
    requires start <= now < end
    ensures Turns(start) <= Turns(now) <= Turns(end - 1)
  {
  }

  lemma SameTurnIncreases(m: nat, t: int, s: nat, t': int, s': nat)
    requires m <= MAX_MACHINE_ID && s <= MAX_SEQUENCE && s' <= MAX_SEQUENCE
    requires Turns(t) == Turns(t') && Before(t, s, t', s')
    ensures Pack(t, m, s) < Pack(t', m, s')
  {
    hide Pack, Turns, SignedStamp;
    PackedSigned(t, m, s);
    PackedSigned(t', m, s');
    StampAndTurns(t);
    StampAndTurns(t');
  }

  lemma IncreaseWithinTurn(g: Gen, calls: seq<seq<int>>, start: int, end: int)
    requires Valid(g) && CallsWithin(calls, start, end) && Turns(start) == Turns(end - 1)
    ensures Increasing(Tickets(g, calls))
  {
    hide Turns, Pack;
    var log := Tickets(g, calls);
    TicketsWithin(g, calls, start, end);
    forall i, j | 0 <= i < j < |log| ensures log[i].id < log[j].id {
      ChainIsOrdered(log, i, j);
      TurnsGrow(start, log[i].time, end);
      TurnsGrow(start, log[j].time, end);
      SameTurnIncreases(g.machineID, log[i].time, log[i].sequence, log[j].time, log[j].sequence);
    }
  }

  /** The reading at which the stamp has turned k times. */
  function TurnAt(k: int): int {
    EPOCH - HALF + k * SPAN
  }

  lemma AtTheTurn(k: int)
    ensures SignedStamp(TurnAt(k)) == -HALF && SignedStamp(TurnAt(k) - 1) == HALF - 1
  {
    StampAndTurns(TurnAt(k));
    StampAndTurns(TurnAt(k) - 1);
  }

  /** The last millisecond before a turn and the first after it. */
  lemma IdsDropAtTurn(k: int) returns (g: Gen, calls: seq<seq<int>>)
    ensures Valid(g) && CallsWithin(calls, TurnAt(k) - 1, TurnAt(k) + 1)
    ensures !Increasing(Tickets(g, calls))
  {
    hide Pack, SignedStamp;
    var t := TurnAt(k);
    g, calls := Gen(0, 0, t - 2), [[t - 1], [t]];
    var g1 := Gen(0, 0, t - 1);
    var g2 := Gen(0, 0, t);
    assert NextID(g, [t - 1]) == (g1, Issued(Pack(t - 1, 0, 0)));
    assert NextID(g1, [t]) == (g2, Issued(Pack(t, 0, 0)));
    assert calls[1..] == [[t]] && [[t]][1..] == [];
    assert Tickets(g1, [[t]]) == [TicketOf(g2, Pack(t, 0, 0))] + Tickets(g2, []);
    var log := Tickets(g, calls);
    assert log[0].id == Pack(t - 1, 0, 0) && log[1].id == Pack(t, 0, 0);
    AtTheTurn(k);
    PackedSigned(t - 1, 0, 0);
    PackedSigned(t, 0, 0);
  }

  /** Exactly over which stretches of time the IDs of every generator increase: those inside
      which the stamp does not turn, such as 2^41 milliseconds on either side of the epoch. */
  lemma IncreasesExactly(start: int, end: int)
    requires start < end
    ensures (forall g: Gen, calls: seq<seq<int>> ::
               Valid(g) && CallsWithin(calls, start, end) ==> Increasing(Tickets(g, calls)))
            <==> Turns(start) == Turns(end - 1)
  {
    hide Tickets, Increasing;
    if Turns(start) == Turns(end - 1) {
      forall g: Gen, calls: seq<seq<int>> | Valid(g) && CallsWithin(calls, start, end)
        ensures Increasing(Tickets(g, calls))
      {
        IncreaseWithinTurn(g, calls, start, end);
      }
    } else {
      TurnsGrow(start, start, end);
      TurnInside(start, end);
      var g, calls := IdsDropAtTurn(Turns(end - 1));
    }
  }

  lemma TurnInside(start: int, end: int)
    requires Turns(start) < Turns(end - 1)
    ensures start < TurnAt(Turns(end - 1)) < end
  {
    StampAndTurns(start);
    StampAndTurns(end - 1);
    MulGap(Turns(start), Turns(end - 1), SPAN);
  }

  // ---------- Starting anew ----------

  predicate Disjoint(a: seq<Ticket>, b: seq<Ticket>) {
    forall i, j :: 0 <= i < |a| && 0 <= j < |b| ==> a[i].id != b[j].id
  }

  predicate CallsFrom(calls: seq<seq<int>>, from: int) {
    forall c, i :: 0 <= c < |calls| && 0 <= i < |calls[c]| ==> from <= calls[c][i]
  }

  /** A machine starts anew with lastTime 0 and the same machine ID. Exactly when it cannot
      repeat an ID of its first life, whatever its clock shows: when all its readings are
      later than the last stamp of that life. */
  lemma RestartExactly(machineID: int, first: seq<seq<int>>, from: int)
    requires 0 <= machineID <= MAX_MACHINE_ID && CallsInEra(first)
    requires Tickets(Fresh(machineID), first) != []
    ensures var log := Tickets(Fresh(machineID), first);
            (forall second: seq<seq<int>> :: CallsInEra(second) && CallsFrom(second, from) ==>
               Disjoint(log, Tickets(Fresh(machineID), second)))
            <==> log[|log| - 1].time < from
  {
    hide Tickets, Disjoint;
    var log := Tickets(Fresh(machineID), first);
    if log[|log| - 1].time < from {
      forall second: seq<seq<int>> | CallsInEra(second) && CallsFrom(second, from)
        ensures Disjoint(log, Tickets(Fresh(machineID), second))
      {
        LaterIsSafe(machineID, first, second, from);
      }
    } else {
      var _ := RestartRepeats(machineID, first, from);
    }
  }

  lemma LaterIsSafe(machineID: int, first: seq<seq<int>>, second: seq<seq<int>>, from: int)
    requires 0 <= machineID <= MAX_MACHINE_ID && CallsInEra(first) && CallsInEra(second) && CallsFrom(second, from)
    requires var log := Tickets(Fresh(machineID), first); log != [] && log[|log| - 1].time < from
    ensures Disjoint(Tickets(Fresh(machineID), first), Tickets(Fresh(machineID), second))
  {
    hide Tickets, Pack;
    var a, b := Tickets(Fresh(machineID), first), Tickets(Fresh(machineID), second);
    TicketsChain(Fresh(machineID), first);
    TicketsChain(Fresh(machineID), second);
    EraEndsAt(second);
    TicketsWithin(Fresh(machineID), second, from, EPOCH + HALF);
    forall i, j | 0 <= i < |a| && 0 <= j < |b| ensures a[i].id != b[j].id {
      if i < |a| - 1 {
        ChainIsOrdered(a, i, |a| - 1);
      }
      PackIncreases(machineID, a[i].time, a[i].sequence, b[j].time, b[j].sequence);
    }
  }

  lemma EraEndsAt(calls: seq<seq<int>>)
    requires CallsInEra(calls)
    ensures forall c, i :: 0 <= c < |calls| && 0 <= i < |calls[c]| ==> calls[c][i] < EPOCH + HALF
  {
    forall c, i | 0 <= c < |calls| && 0 <= i < |calls[c]| ensures calls[c][i] < EPOCH + HALF {
      assert ReadingsInEra(calls[c]) && InEra(calls[c][i]);
    }
  }

  /** One call at the last stamp of the first life gets the number 0 of that millisecond,
      which the first life has issued too. */
  lemma RestartRepeats(machineID: int, first: seq<seq<int>>, from: int) returns (second: seq<seq<int>>)
    requires 0 <= machineID <= MAX_MACHINE_ID && CallsInEra(first)
    requires var log := Tickets(Fresh(machineID), first); log != [] && from <= log[|log| - 1].time
    ensures CallsInEra(second) && CallsFrom(second, from)
    ensures !Disjoint(Tickets(Fresh(machineID), first), Tickets(Fresh(machineID), second))
  {
    hide Pack;
    var log := Tickets(Fresh(machineID), first);
    var last := |log| - 1;
    TicketsChain(Fresh(machineID), first);
    SequencePrefix(machineID, first, last);
    var t := log[last].time;
    var k := last - log[last].sequence;
    var zero := log[k];
    assert WellFormed(machineID, zero) && zero.time == t && zero.sequence == 0;
    second := [[t]];
    var g := Gen(machineID, 0, t);
    assert NextID(Fresh(machineID), [t]) == (g, Issued(Pack(t, machineID, 0)));
    assert second[1..] == [];
    var again := Tickets(Fresh(machineID), second);
    assert again == [TicketOf(g, Pack(t, machineID, 0))] + Tickets(g, []);
    assert log[k].id == again[0].id;
  }
}
