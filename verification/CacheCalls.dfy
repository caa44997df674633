/** Whole reads in the step system, with nothing in between, and how long entries live. */
module CacheCalls {
  import opened CacheModel
  import opened CacheTheorems
  import opened Wrappers

  // ---------- A read on its own ----------

  /** A call whose first read finds an entry returns what it says and does nothing else. */
  lemma HitIsImmediate(s: World, c: nat, jitter: nat)
    requires c < |s.calls| && s.calls[c].pc.FirstGet? && s.calls[c].key in s.store
    ensures Enabled(s, StepCall(c, true, jitter))
    ensures var cached := s.store[s.calls[c].key].value;
            Apply(s, StepCall(c, true, jitter))
            == s.(calls := s.calls[c := s.calls[c].(pc :=
                    Returned(Value(if cached == "<NIL>" then "" else cached)))])
  {
  }

  /** A call whose first read misses enters a flight of its own, if there is none, and makes
      its second read. */
  lemma MissTakesOff(db: map<string, string>, steps: seq<Step>, s: World, p: nat, key: string, baseTTL: int,
                     first: bool, second: bool)
    returns (longer: seq<Step>, s': World)
    requires CanRun(db, steps) && s == After(db, steps)
    requires 10 <= baseTTL && Slot(p, key) !in s.inFlight && !(first && key in s.store)
    ensures CanRun(db, longer) && s' == After(db, longer)
    ensures s'.calls == s.calls + [Call(p, key, baseTTL,
              if second && key in s.store then LeadEnd(|s.flights|, Value(Decode(s.store[key].value)))
              else LeadCall(|s.flights|))]
    ensures s'.flights == s.flights + [Flight(Slot(p, key), |s.calls|, None)]
    ensures s'.inFlight == s.inFlight[Slot(p, key) := |s.flights|]
    ensures s'.store == s.store && s'.now == s.now && s'.loads == s.loads && s'.db == s.db
  {
    hide CanRun, After;
    var c := |s.calls|;
    longer, s' := Extend(db, steps, s, Begin(p, key, baseTTL));
    longer, s' := Extend(db, longer, s', StepCall(c, first, 0));
    longer, s' := Extend(db, longer, s', StepCall(c, true, 0));
    assert s'.calls == s.calls + [Call(p, key, baseTTL, LeadGet(|s.flights|))];
    longer, s' := Extend(db, longer, s', StepCall(c, second, 0));
  }

  /** The loader is called, and its result is returned and cached: an empty one as <NIL> for
      sixty seconds, any other for the base TTL and the jitter. An error is returned as it
      is and nothing is cached. A failed write changes nothing for the caller. */
  lemma LeaderAnswers(db: map<string, string>, steps: seq<Step>, s: World, c: nat,
                      loads: bool, writes: bool, jitter: nat)
    returns (longer: seq<Step>, s': World)
    requires CanRun(db, steps) && s == After(db, steps)
    requires c < |s.calls| && s.calls[c].pc.LeadCall? && jitter < s.calls[c].baseTTL / 10
    ensures CanRun(db, longer) && s' == After(db, longer)
    ensures |s'.calls| == |s.calls| && s'.now == s.now && s'.inFlight == s.inFlight - {SlotOf(s.calls[c])}
    ensures var key, v := s.calls[c].key, Loaded(s.db, s.calls[c].key);
            && s'.calls[c].pc == Returned(if loads then Value(v) else LoaderError)
            && |s'.loads| == |s.loads| + (if loads then 1 else 0)
            && s'.store
               == if !loads || !writes then s.store
                  else if v == "" then s.store[key := Entry("<NIL>", s.now + 60_000_000_000)]
                  else s.store[key := Entry(v, s.now + s.calls[c].baseTTL + jitter)]
  {
    hide CanRun, After;
    longer, s' := LoaderEnds(db, steps, s, c, loads);
    if loads {
      longer, s' := Extend(db, longer, s', StepCall(c, writes, jitter));
      assert s'.calls[c].pc.LeadEnd? && SlotOf(s'.calls[c]) == SlotOf(s.calls[c]);
    }
    longer, s' := Land(db, longer, s', c);
  }

  lemma LoaderEnds(db: map<string, string>, steps: seq<Step>, s: World, c: nat, loads: bool)
    returns (longer: seq<Step>, s': World)
    requires CanRun(db, steps) && s == After(db, steps) && c < |s.calls| && s.calls[c].pc.LeadCall?
    ensures CanRun(db, longer) && s' == After(db, longer)
    ensures var f, v := s.calls[c].pc.flight, Loaded(s.db, s.calls[c].key);
            s'.calls == s.calls[c := s.calls[c].(pc :=
              if loads then LeadSet(f, v, |s.loads|) else LeadEnd(f, LoaderError))]
    ensures |s'.loads| == |s.loads| + (if loads then 1 else 0)
    ensures s'.now == s.now && s'.db == s.db && s'.store == s.store && s'.inFlight == s.inFlight
  {
    hide CanRun, After;
    longer, s' := Extend(db, steps, s, StepCall(c, true, 0));
    longer, s' := Extend(db, longer, s', StepCall(c, loads, 0));
  }

  lemma Land(db: map<string, string>, steps: seq<Step>, s: World, c: nat) returns (longer: seq<Step>, s': World)
    requires CanRun(db, steps) && s == After(db, steps) && c < |s.calls| && s.calls[c].pc.LeadEnd?
    ensures CanRun(db, longer) && s' == After(db, longer)
    ensures s'.calls == s.calls[c := s.calls[c].(pc := Returned(s.calls[c].pc.outcome))]
    ensures s'.inFlight == s.inFlight - {SlotOf(s.calls[c])}
    ensures s'.now == s.now && s'.store == s.store && s'.loads == s.loads
  {
    longer, s' := Extend(db, steps, s, StepCall(c, true, 0));
  }

  // ---------- Lifetimes ----------

  /** The longest time for which a call may cache a value. */
  function LongestLife(v: string, baseTTL: int): int {
    if v == "" then 60_000_000_000 else baseTTL + baseTTL / 10
  }

  ghost predicate LifeInv(s: World) {
    && (forall c :: 0 <= c < |s.calls| && s.calls[c].pc.LeadSet? ==> s.calls[c].pc.v == Loaded(s.db, s.calls[c].key))
    && (forall key :: key in s.store ==> LivesNoLonger(s, key))
  }

  ghost predicate LivesNoLonger(s: World, key: string)
    requires key in s.store
  {
    exists c :: 0 <= c < |s.calls| && s.calls[c].key == key
      && s.store[key].deadline <= s.now + LongestLife(Loaded(s.db, key), s.calls[c].baseTTL)
  }

  lemma LifeStep(s: World, step: Step)
    requires LifeInv(s) && Enabled(s, step)
    ensures LifeInv(Apply(s, step))
  {
    var s' := Apply(s, step);
    forall key | key in s'.store ensures LivesNoLonger(s', key) {
      if key in s.store && s'.store[key] == s.store[key] {
        var c :| 0 <= c < |s.calls| && s.calls[c].key == key
                 && s.store[key].deadline <= s.now + LongestLife(Loaded(s.db, key), s.calls[c].baseTTL);
        assert s'.calls[c].key == key && s'.calls[c].baseTTL == s.calls[c].baseTTL;
      } else {
        assert s'.calls[step.c].key == key && s'.calls[step.c].baseTTL == s.calls[step.c].baseTTL;
      }
    }
  }

  /** No entry outlives what a call for its key may ask for: sixty seconds for an empty
      value, a base TTL and a tenth of it for any other. */
  lemma {:induction false} Lifetimes(db: map<string, string>, steps: seq<Step>)
    requires CanRun(db, steps)
    ensures LifeInv(After(db, steps))
  {
    if steps != [] {
      Lifetimes(db, steps[..|steps| - 1]);
      LifeStep(After(db, steps[..|steps| - 1]), steps[|steps| - 1]);
    }
  }
}
