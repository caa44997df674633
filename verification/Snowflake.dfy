/** The generator as code. `clock` holds what time.Now returns during a call. */
module SnowflakeCode {
  import opened Bits
  import opened SnowflakeModel
  import opened SnowflakeTheorems

  class Generator {
    var machineID: int
    var sequence: int
    var lastTime: int

    function View(): Gen
      reads this
    {
      Gen(machineID, sequence, lastTime)
    }

    constructor (machineID: int)
      ensures View() == Fresh(machineID)
    {
      this.machineID, sequence, lastTime := machineID, 0, 0;
    }

    /** Refuses exactly the machine IDs that do not fit in ten bits. */
    static method NewGenerator(machineID: int) returns (g: Generator?)
      ensures g == null <==> machineID < 0 || machineID > MAX_MACHINE_ID
      ensures g != null ==> fresh(g) && g.View() == Fresh(machineID) && Valid(g.View())
    {
      if machineID < 0 || machineID > MAX_MACHINE_ID {
        return null;
      }
      g := new Generator(machineID);
    }

    /** NextID of utils/snowflake/snowflake.go, under its mutex. A refused call changes
        nothing; an issued ID is the next stamp of this generator, packed. */
    method NextID(clock: seq<int>) returns (result: Result)
      requires Valid(View())
      modifies this
      ensures (View(), result) == SnowflakeModel.NextID(old(View()), clock)
      ensures Valid(View()) && machineID == old(machineID)
      ensures result == ErrClockBackward ==> View() == old(View())
      ensures result.Issued? ==>
                && result.id == Pack(lastTime, machineID, sequence)
                && Follows(old(lastTime), old(sequence), TicketOf(View(), result.id))
    {
      OneCall(View(), clock);
      if clock == [] {
        return Blocked;
      }
      var now, used := clock[0], 1;
      if now < lastTime {
        var offset := Int64(lastTime - now);
        if offset <= 5 {
          if |clock| == 1 {
            return Blocked;
          }
          now, used := clock[1], 2;
        }
        if now < lastTime {
          return ErrClockBackward;
        }
      }

      if now == lastTime {
        sequence := And(sequence + 1, MAX_SEQUENCE);
        if sequence == 0 {
          var later := WaitNextMilli(now, clock[used..]);
          if later == [] {
            return Blocked;
          }
          now := later[0];
        }
      } else {
        sequence := 0;
      }
      lastTime := now;
      result := Issued(Pack(now, machineID, sequence));
    }

    /** Spins until the clock has moved past `last`; no result if the readings run out. */
    method WaitNextMilli(last: int, readings: seq<int>) returns (later: seq<int>)
      ensures later == FirstAfter(readings, last)
      ensures later == [] <==> forall i :: 0 <= i < |readings| ==> readings[i] <= last
      ensures later != [] ==> |later| == 1 && last < later[0]
    {
      FirstAfterIsLater(readings, last);
      var i := 0;
      while i < |readings| && readings[i] <= last
        invariant 0 <= i <= |readings|
        invariant FirstAfter(readings, last) == FirstAfter(readings[i..], last)
      {
        i := i + 1;
      }
      later := if i < |readings| then [readings[i]] else [];
    }
  }
}
