/** The protected read behaves like the plain loader, and protects it. */
module CacheTheorems {
  import opened CacheModel
  import opened Wrappers

  // ---------- The flight table ----------

  /** A flight is in the table exactly while it has no outcome, and its leader, and no
      other call, is working on it. */
  ghost predicate FlightInv(s: World, f: nat)
    requires f < |s.flights|
  {
    var fl := s.flights[f];
    && fl.leader < |s.calls|
    && SlotOf(s.calls[fl.leader]) == fl.slot
    && (fl.outcome.Some? ==> s.calls[fl.leader].pc == Returned(fl.outcome.value))
    && (fl.outcome.None? ==>
          && fl.slot in s.inFlight && s.inFlight[fl.slot] == f
          && Leads(s.calls[fl.leader].pc) && s.calls[fl.leader].pc.flight == f)
  }

  ghost predicate CallInv(s: World, c: nat)
    requires c < |s.calls|
  {
    var call := s.calls[c];
    && 10 <= call.baseTTL
    && (call.pc.Join? ==> call.pc.flight < |s.flights| && s.flights[call.pc.flight].slot == SlotOf(call))
    && (Leads(call.pc) ==>
          && call.pc.flight < |s.flights|
          && s.flights[call.pc.flight] == Flight(SlotOf(call), c, None))
  }

  ghost predicate TableInv(s: World) {
    && (forall k :: k in s.inFlight ==>
          s.inFlight[k] < |s.flights| && s.flights[s.inFlight[k]].slot == k && s.flights[s.inFlight[k]].outcome.None?)
    && (forall f :: 0 <= f < |s.flights| ==> FlightInv(s, f))
    && (forall c :: 0 <= c < |s.calls| ==> CallInv(s, c))
  }

  lemma CallKeepsFlights(s: World, c: nat, works: bool, jitter: nat, f: nat)
    requires TableInv(s) && Enabled(s, StepCall(c, works, jitter))
    requires f < |CallNext(s, c, works, jitter).flights|
    ensures FlightInv(CallNext(s, c, works, jitter), f)
  {
    assert CallInv(s, c);
    if Leads(s.calls[c].pc) {
      assert FlightInv(s, s.calls[c].pc.flight);
    }
    if f < |s.flights| {
      assert FlightInv(s, f);
      assert CallInv(s, s.flights[f].leader);
    }
  }

  lemma MoverKeepsInv(s: World, c: nat, works: bool, jitter: nat)
    requires TableInv(s) && Enabled(s, StepCall(c, works, jitter))
    ensures CallInv(CallNext(s, c, works, jitter), c)
  {
    hide Loaded, Decode, Encode, BaseTTL;
    assert CallInv(s, c);
  }

  lemma OthersKeepInv(s: World, c: nat, works: bool, jitter: nat, d: nat)
    requires TableInv(s) && Enabled(s, StepCall(c, works, jitter)) && d < |s.calls| && d != c
    ensures CallInv(CallNext(s, c, works, jitter), d)
  {
    hide Loaded, Decode, Encode, BaseTTL, NextPc;
    assert CallInv(s, c) && CallInv(s, d);
    if Leads(s.calls[d].pc) {
      assert FlightInv(s, s.calls[d].pc.flight);
    }
  }

  lemma CallKeepsTable(s: World, c: nat, works: bool, jitter: nat)
    requires TableInv(s) && Enabled(s, StepCall(c, works, jitter))
    ensures TableInv(CallNext(s, c, works, jitter))
  {
    var s' := CallNext(s, c, works, jitter);
    assert CallInv(s, c);
    forall f | 0 <= f < |s'.flights| ensures FlightInv(s', f) {
      CallKeepsFlights(s, c, works, jitter, f);
    }
    forall d | 0 <= d < |s'.calls| ensures CallInv(s', d) {
      if d == c {
        MoverKeepsInv(s, c, works, jitter);
      } else {
        OthersKeepInv(s, c, works, jitter, d);
      }
    }
  }

  lemma TableStep(s: World, step: Step)
    requires TableInv(s) && Enabled(s, step)
    ensures TableInv(Apply(s, step))
  {
    var s' := Apply(s, step);
    if step.StepCall? {
      CallKeepsTable(s, step.c, step.works, step.jitter);
    } else {
      forall f | 0 <= f < |s'.flights| ensures FlightInv(s', f) {
        assert FlightInv(s, f);
      }
      forall d | 0 <= d < |s'.calls| ensures CallInv(s', d) {
        assert d < |s.calls| ==> CallInv(s, d);
      }
    }
  }

  lemma {:induction false} TableRun(db: map<string, string>, steps: seq<Step>)
    requires CanRun(db, steps)
    ensures TableInv(After(db, steps)) && After(db, steps).db == db
  {
    if steps != [] {
      TableRun(db, steps[..|steps| - 1]);
      TableStep(After(db, steps[..|steps| - 1]), steps[|steps| - 1]);
    }
  }

  lemma LeaderIsUnique(s: World, c: nat, d: nat)
    requires TableInv(s) && c < |s.calls| && d < |s.calls|
    requires Leads(s.calls[c].pc) && Leads(s.calls[d].pc) && SlotOf(s.calls[c]) == SlotOf(s.calls[d])
    ensures c == d
  {
    assert CallInv(s, c) && CallInv(s, d);
    assert FlightInv(s, s.calls[c].pc.flight) && FlightInv(s, s.calls[d].pc.flight);
  }

  /** However many callers there are, at most one of them is working for a key in a process,
      so at most one loader per key and process is running. */
  lemma OneLeaderPerKey(db: map<string, string>, steps: seq<Step>, c: nat, d: nat)
    requires CanRun(db, steps)
    requires c < |After(db, steps).calls| && d < |After(db, steps).calls|
    requires Leads(After(db, steps).calls[c].pc) && Leads(After(db, steps).calls[d].pc)
    requires SlotOf(After(db, steps).calls[c]) == SlotOf(After(db, steps).calls[d])
    ensures c == d
  {
    TableRun(db, steps);
    LeaderIsUnique(After(db, steps), c, d);
  }

  /** A joined call waits only for a leader that can go on: no deadlock in a flight. */
  lemma LeaderCanGoOn(db: map<string, string>, steps: seq<Step>, c: nat)
    requires CanRun(db, steps) && c < |After(db, steps).calls| && After(db, steps).calls[c].pc.Join?
    ensures var s := After(db, steps);
            || (forall works, jitter :: Enabled(s, StepCall(c, works, jitter)))
            || exists d :: 0 <= d < |s.calls| && Leads(s.calls[d].pc)
                 && s.calls[d].pc.flight == s.calls[c].pc.flight && SlotOf(s.calls[d]) == SlotOf(s.calls[c])
                 && forall works :: Enabled(s, StepCall(d, works, 0))
  {
    TableRun(db, steps);
    var s := After(db, steps);
    var f := s.calls[c].pc.flight;
    assert CallInv(s, c) && FlightInv(s, f);
    if s.flights[f].outcome.None? {
      var d := s.flights[f].leader;
      assert CallInv(s, d) && Leads(s.calls[d].pc);
    }
  }

  /** Joiners share the leader's result: whatever a flight ends with, its leader has returned
      it, and so does every call that joined, the next time it is scheduled. */
  lemma JoinersShare(db: map<string, string>, steps: seq<Step>, c: nat, works: bool, jitter: nat)
    requires CanRun(db, steps) && c < |After(db, steps).calls| && After(db, steps).calls[c].pc.Join?
    requires Enabled(After(db, steps), StepCall(c, works, jitter))
    ensures var s := After(db, steps);
            exists d :: 0 <= d < |s.calls| && s.calls[d].pc.Returned? && SlotOf(s.calls[d]) == SlotOf(s.calls[c])
              && Apply(s, StepCall(c, works, jitter)) == s.(calls := s.calls[c := s.calls[c].(pc := s.calls[d].pc)])
  {
    TableRun(db, steps);
    var s := After(db, steps);
    var f := s.calls[c].pc.flight;
    assert CallInv(s, c) && FlightInv(s, f);
    var d := s.flights[f].leader;
    assert s.calls[d].pc == Returned(s.flights[f].outcome.value);
    assert SlotOf(s.calls[d]) == SlotOf(s.calls[c]);
  }

  // ---------- Transparency ----------

  /** What a call or a flight of a key may come up with. */
  predicate Faithful(s: World, slot: Slot, outcome: Outcome) {
    match outcome
    case Value(v) => Loaded(s.db, slot.key) != EMPTY_CACHE_VALUE ==> v == Loaded(s.db, slot.key)
    case LoaderError => slot in s.failed
  }

  predicate PcFaithful(s: World, call: Call) {
    match call.pc
    case LeadSet(_, v, _) => v == Loaded(s.db, call.key)
    case LeadEnd(_, outcome) => Faithful(s, SlotOf(call), outcome)
    case Returned(outcome) => Faithful(s, SlotOf(call), outcome)
    case _ => true
  }

  ghost predicate TruthInv(s: World) {
    && (forall k :: k in s.store ==> s.store[k].value == Encode(Loaded(s.db, k)))
    && (forall c :: 0 <= c < |s.calls| ==> PcFaithful(s, s.calls[c]))
    && (forall f :: 0 <= f < |s.flights| && s.flights[f].outcome.Some? ==>
          Faithful(s, s.flights[f].slot, s.flights[f].outcome.value))
  }

  lemma TruthStep(s: World, step: Step)
    requires TableInv(s) && TruthInv(s) && Enabled(s, step)
    ensures TruthInv(Apply(s, step))
  {
    var s' := Apply(s, step);
    if step.StepCall? {
      assert CallInv(s, step.c);
      assert PcFaithful(s, s.calls[step.c]);
      assert PcFaithful(s', s'.calls[step.c]);
    }
    forall d | 0 <= d < |s'.calls| ensures PcFaithful(s', s'.calls[d]) {
      assert d < |s.calls| ==> PcFaithful(s, s.calls[d]);
    }
  }

  lemma {:induction false} TruthRun(db: map<string, string>, steps: seq<Step>)
    requires CanRun(db, steps)
    ensures TruthInv(After(db, steps))
  {
    if steps != [] {
      TruthRun(db, steps[..|steps| - 1]);
      TableRun(db, steps[..|steps| - 1]);
      TruthStep(After(db, steps[..|steps| - 1]), steps[|steps| - 1]);
    }
  }

  /** The protected read refines the plain loader: from any reachable cache state, whatever
      expires, fails or interleaves, a call that returns a value returns the loader's. */
  lemma Transparent(db: map<string, string>, steps: seq<Step>, c: nat)
    requires CanRun(db, steps) && c < |After(db, steps).calls|
    requires After(db, steps).calls[c].pc.Returned? && After(db, steps).calls[c].pc.outcome.Value?
    requires Loaded(db, After(db, steps).calls[c].key) != EMPTY_CACHE_VALUE
    ensures After(db, steps).calls[c].pc.outcome.v == Loaded(db, After(db, steps).calls[c].key)
  {
    TruthRun(db, steps);
    TableRun(db, steps);
    assert PcFaithful(After(db, steps), After(db, steps).calls[c]);
  }

  /** A call that returns the loader's error does so because a loader of its key, in its
      process, has failed. */
  lemma ErrorsAreLoaders(db: map<string, string>, steps: seq<Step>, c: nat)
    requires CanRun(db, steps) && c < |After(db, steps).calls|
    requires After(db, steps).calls[c].pc == Returned(LoaderError)
    ensures SlotOf(After(db, steps).calls[c]) in After(db, steps).failed
  {
    TruthRun(db, steps);
    assert PcFaithful(After(db, steps), After(db, steps).calls[c]);
  }

  lemma Extend(db: map<string, string>, steps: seq<Step>, s: World, step: Step) returns (longer: seq<Step>, s': World)
    requires CanRun(db, steps) && s == After(db, steps) && Enabled(s, step)
    ensures CanRun(db, longer) && s' == After(db, longer) && s' == Apply(s, step)
    ensures longer == steps + [step]
  {
    longer, s' := steps + [step], Apply(s, step);
    assert longer[..|longer| - 1] == steps;
  }

  /** A call that misses and fills the cache. */
  lemma FillCache(db: map<string, string>, key: string) returns (steps: seq<Step>, s: World)
    requires Loaded(db, key) == EMPTY_CACHE_VALUE
    ensures CanRun(db, steps) && s == After(db, steps)
    ensures key in s.store && s.store[key].value == EMPTY_CACHE_VALUE && |s.calls| == 1
  {
    steps, s := [], Init(db);
    steps, s := Extend(db, steps, s, Begin(0, key, 10));
    steps, s := Extend(db, steps, s, StepCall(0, true, 0));
    steps, s := Extend(db, steps, s, StepCall(0, true, 0));
    assert s.calls[0] == Call(0, key, 10, LeadGet(0)) && s.store == map[];
    steps, s := Extend(db, steps, s, StepCall(0, true, 0));
    steps, s := Extend(db, steps, s, StepCall(0, true, 0));
    steps, s := Extend(db, steps, s, StepCall(0, true, 0));
    assert s.calls[0] == Call(0, key, 10, LeadSet(0, EMPTY_CACHE_VALUE, 0)) && |s.calls| == 1;
    steps, s := Extend(db, steps, s, StepCall(0, true, 0));
  }

  /** A stored value that looks like the sentinel is read back as empty. */
  lemma SentinelIsLost(db: map<string, string>, key: string) returns (steps: seq<Step>, c: nat)
    requires Loaded(db, key) == EMPTY_CACHE_VALUE
    ensures CanRun(db, steps) && c < |After(db, steps).calls|
    ensures After(db, steps).calls[c].key == key && After(db, steps).calls[c].pc == Returned(Value(""))
  {
    var s;
    steps, s := FillCache(db, key);
    steps, s := Extend(db, steps, s, Begin(0, key, 10));
    c := 1;
    steps, s := Extend(db, steps, s, StepCall(c, true, 0));
  }

  /** Every returned value of this key, in this run, is the loader's. */
  ghost predicate AllTrue(db: map<string, string>, steps: seq<Step>, key: string)
    requires CanRun(db, steps)
  {
    forall c :: 0 <= c < |After(db, steps).calls| && After(db, steps).calls[c].key == key
                && After(db, steps).calls[c].pc.Returned? && After(db, steps).calls[c].pc.outcome.Value? ==>
      After(db, steps).calls[c].pc.outcome.v == Loaded(db, key)
  }

  /** Exactly which keys are read transparently in every run: those whose value is not the
      sentinel itself. */
  lemma TransparentExactly(db: map<string, string>, key: string)
    ensures (forall steps :: CanRun(db, steps) ==> AllTrue(db, steps, key))
            <==> Loaded(db, key) != EMPTY_CACHE_VALUE
  {
    if Loaded(db, key) == EMPTY_CACHE_VALUE {
      var steps, c := SentinelIsLost(db, key);
      assert !AllTrue(db, steps, key);
    } else {
      forall steps | CanRun(db, steps) ensures AllTrue(db, steps, key) {
        TruthRun(db, steps);
        TableRun(db, steps);
        var s := After(db, steps);
        forall c | 0 <= c < |s.calls| && s.calls[c].key == key
                   && s.calls[c].pc.Returned? && s.calls[c].pc.outcome.Value?
          ensures s.calls[c].pc.outcome.v == Loaded(db, key)
        {
          Transparent(db, steps, c);
        }
      }
    }
  }

  // ---------- How often the loader runs ----------

  /** When the result of a load may be gone from the cache. */
  function Until(load: Load): int { load.end + load.ttl }

  /** The result of load i is on its way to the cache, or in it, or has had its time. */
  ghost predicate Protected(s: World, p: nat, i: nat)
    requires i < |s.loads|
  {
    var key, slot := s.loads[i].key, Slot(p, s.loads[i].key);
    || Until(s.loads[i]) <= s.now
    || (key in s.store && Until(s.loads[i]) <= s.store[key].deadline)
    || (slot in s.inFlight && s.inFlight[slot] < |s.flights|
        && s.flights[s.inFlight[slot]].leader < |s.calls|
        && s.calls[s.flights[s.inFlight[slot]].leader].pc.LeadSet?
        && s.calls[s.flights[s.inFlight[slot]].leader].pc.load == i)
  }

  /** Everything loaded for the key has had its time. */
  ghost predicate AllOver(s: World, key: string, now: int) {
    forall i :: 0 <= i < |s.loads| && s.loads[i].key == key ==> Until(s.loads[i]) <= now
  }

  /** A loader is called only when everything loaded before has had its time. */
  ghost predicate CallSpaced(s: World, call: Call) {
    match call.pc
    case LeadCall(_) =>
      call.key in s.faults || AllOver(s, call.key, s.now)
    case LeadLoad(_, since) =>
      && since <= s.now
      && (call.key in s.faults || AllOver(s, call.key, since))
    case LeadSet(_, v, load) =>
      && load < |s.loads|
      && s.loads[load].key == call.key && s.loads[load].end <= s.now
      && s.loads[load].ttl == BaseTTL(v, call.baseTTL)
      && (call.key in s.faults || forall i :: 0 <= i < |s.loads| && s.loads[i].key == call.key && i != load ==>
            Until(s.loads[i]) <= s.now)
    case _ => true
  }

  ghost predicate SpacingInv(s: World, p: nat) {
    && (forall c :: 0 <= c < |s.calls| ==> s.calls[c].process == p)
    && (forall i :: 0 <= i < |s.loads| && s.loads[i].key !in s.faults ==> Protected(s, p, i))
    && (forall c :: 0 <= c < |s.calls| ==> CallSpaced(s, s.calls[c]))
    && (forall i, j :: 0 <= i < j < |s.loads| && s.loads[i].key == s.loads[j].key && s.loads[i].key !in s.faults ==>
          Until(s.loads[i]) <= s.loads[j].begin <= s.loads[j].end)
    && (forall k :: k in s.store ==> s.now < s.store[k].deadline)
  }

  /** The call that leads a flight. */
  function Leader(s: World, slot: Slot): nat
    requires slot in s.inFlight && s.inFlight[slot] < |s.flights|
  {
    s.flights[s.inFlight[slot]].leader
  }

  lemma CallKeepsProtection(s: World, p: nat, c: nat, works: bool, jitter: nat, i: nat)
    requires TableInv(s) && SpacingInv(s, p) && Enabled(s, StepCall(c, works, jitter)) && i < |s.loads|
    requires s.loads[i].key !in CallNext(s, c, works, jitter).faults
    ensures Protected(CallNext(s, c, works, jitter), p, i)
  {
    var key := s.loads[i].key;
    assert Protected(s, p, i);
    assert CallInv(s, c) && CallSpaced(s, s.calls[c]);
    if Slot(p, key) in s.inFlight {
      assert FlightInv(s, s.inFlight[Slot(p, key)]);
      assert CallInv(s, Leader(s, Slot(p, key)));
      if Leads(s.calls[c].pc) {
        assert FlightInv(s, s.calls[c].pc.flight);
      }
    }
  }

  lemma NewLoadIsProtected(s: World, p: nat, c: nat, jitter: nat)
    requires TableInv(s) && Enabled(s, StepCall(c, true, jitter)) && s.calls[c].pc.LeadLoad?
    requires s.calls[c].process == p
    ensures Protected(CallNext(s, c, true, jitter), p, |s.loads|)
  {
    assert CallInv(s, c);
    assert FlightInv(s, s.calls[c].pc.flight);
  }

  lemma MoverIsSpaced(s: World, p: nat, c: nat, works: bool, jitter: nat)
    requires TableInv(s) && SpacingInv(s, p) && Enabled(s, StepCall(c, works, jitter))
    ensures CallSpaced(CallNext(s, c, works, jitter), CallNext(s, c, works, jitter).calls[c])
  {
    var s' := CallNext(s, c, works, jitter);
    var key := s.calls[c].key;
    assert CallInv(s, c) && CallSpaced(s, s.calls[c]);
    if s.calls[c].pc.LeadGet? && s'.calls[c].pc.LeadCall? && key !in s'.faults {
      assert FlightInv(s, s.calls[c].pc.flight);
      forall i | 0 <= i < |s.loads| && s.loads[i].key == key ensures Until(s.loads[i]) <= s.now {
        assert Protected(s, p, i);
      }
    }
  }

  lemma OthersStaySpaced(s: World, p: nat, c: nat, works: bool, jitter: nat, d: nat)
    requires TableInv(s) && SpacingInv(s, p) && Enabled(s, StepCall(c, works, jitter))
    requires d < |s.calls| && d != c
    ensures CallSpaced(CallNext(s, c, works, jitter), s.calls[d])
  {
    assert CallSpaced(s, s.calls[d]);
    if Leads(s.calls[c].pc) && Leads(s.calls[d].pc) && s.calls[c].key == s.calls[d].key {
      LeaderIsUnique(s, c, d);
    }
  }

  lemma CallKeepsOrder(s: World, p: nat, c: nat, works: bool, jitter: nat, i: nat, j: nat)
    requires TableInv(s) && SpacingInv(s, p) && Enabled(s, StepCall(c, works, jitter))
    requires var s' := CallNext(s, c, works, jitter);
             i < j < |s'.loads| && s'.loads[i].key == s'.loads[j].key && s'.loads[i].key !in s'.faults
    ensures var s' := CallNext(s, c, works, jitter);
            Until(s'.loads[i]) <= s'.loads[j].begin <= s'.loads[j].end
  {
    assert CallSpaced(s, s.calls[c]);
  }

  lemma CallKeepsSpacing(s: World, p: nat, c: nat, works: bool, jitter: nat)
    requires TableInv(s) && SpacingInv(s, p) && Enabled(s, StepCall(c, works, jitter))
    ensures SpacingInv(CallNext(s, c, works, jitter), p)
  {
    hide Protected, CallSpaced, TableInv;
    var s' := CallNext(s, c, works, jitter);
    forall i | 0 <= i < |s'.loads| && s'.loads[i].key !in s'.faults ensures Protected(s', p, i) {
      if i < |s.loads| {
        CallKeepsProtection(s, p, c, works, jitter, i);
      } else {
        NewLoadIsProtected(s, p, c, jitter);
      }
    }
    forall d | 0 <= d < |s'.calls| ensures CallSpaced(s', s'.calls[d]) {
      if d == c {
        MoverIsSpaced(s, p, c, works, jitter);
      } else {
        OthersStaySpaced(s, p, c, works, jitter, d);
      }
    }
    forall i, j | 0 <= i < j < |s'.loads| && s'.loads[i].key == s'.loads[j].key && s'.loads[i].key !in s'.faults
      ensures Until(s'.loads[i]) <= s'.loads[j].begin <= s'.loads[j].end
    {
      CallKeepsOrder(s, p, c, works, jitter, i, j);
    }
    DeadlinesAhead(s, p, c, works, jitter);
  }

  lemma DeadlinesAhead(s: World, p: nat, c: nat, works: bool, jitter: nat)
    requires TableInv(s) && SpacingInv(s, p) && Enabled(s, StepCall(c, works, jitter))
    ensures var s' := CallNext(s, c, works, jitter);
            forall k :: k in s'.store ==> s'.now < s'.store[k].deadline
  {
    assert CallInv(s, c);
  }

  lemma TimeKeepsSpacing(s: World, p: nat, step: Step)
    requires TableInv(s) && SpacingInv(s, p) && Enabled(s, step) && !step.StepCall?
    requires step.Begin? ==> step.process == p
    ensures SpacingInv(Apply(s, step), p)
  {
    var s' := Apply(s, step);
    forall i | 0 <= i < |s'.loads| && s'.loads[i].key !in s'.faults ensures Protected(s', p, i) {
      assert Protected(s, p, i);
      var key := s.loads[i].key;
      if Slot(p, key) in s.inFlight {
        assert FlightInv(s, s.inFlight[Slot(p, key)]);
      }
    }
    forall d | 0 <= d < |s'.calls| ensures CallSpaced(s', s'.calls[d]) {
      assert d < |s.calls| ==> CallSpaced(s, s.calls[d]);
    }
  }

  /** Every call of the run begins in one of these processes. */
  predicate BeginIn(steps: seq<Step>, processes: set<nat>) {
    forall i :: 0 <= i < |steps| && steps[i].Begin? ==> steps[i].process in processes
  }

  lemma {:induction false} SpacingRun(db: map<string, string>, steps: seq<Step>, p: nat)
    requires CanRun(db, steps) && BeginIn(steps, {p})
    ensures SpacingInv(After(db, steps), p)
  {
    hide SpacingInv, TableInv;
    if steps == [] {
      SpacingInit(db, p);
    } else {
      var front, step := steps[..|steps| - 1], steps[|steps| - 1];
      assert forall i :: 0 <= i < |front| ==> front[i] == steps[i];
      SpacingRun(db, front, p);
      TableRun(db, front);
      if step.StepCall? {
        CallKeepsSpacing(After(db, front), p, step.c, step.works, step.jitter);
      } else {
        TimeKeepsSpacing(After(db, front), p, step);
      }
    }
  }

  lemma SpacingInit(db: map<string, string>, p: nat)
    ensures SpacingInv(Init(db), p)
  {
  }

  /** Stampede protection in one process: between the end of one successful loader call for
      a key and the beginning of the next lies at least the base TTL, or sixty seconds if
      the value was empty, for any number of callers, unless Redis failed on that key. */
  lemma LoadsAreSpaced(db: map<string, string>, steps: seq<Step>, p: nat, i: nat, j: nat)
    requires CanRun(db, steps) && BeginIn(steps, {p}) && i < j < |After(db, steps).loads|
    requires After(db, steps).loads[i].key == After(db, steps).loads[j].key
    requires After(db, steps).loads[i].key !in After(db, steps).faults
    ensures After(db, steps).loads[i].end + After(db, steps).loads[i].ttl <= After(db, steps).loads[j].begin
  {
    SpacingRun(db, steps, p);
  }

  /** In particular one successful load per key is all there is until a TTL has passed. */
  lemma OneLoadWithinTTL(db: map<string, string>, steps: seq<Step>, p: nat, ttl: int, i: nat, j: nat)
    requires CanRun(db, steps) && BeginIn(steps, {p})
    requires i < |After(db, steps).loads| && j < |After(db, steps).loads|
    requires After(db, steps).loads[i].key == After(db, steps).loads[j].key
    requires After(db, steps).loads[i].key !in After(db, steps).faults
    requires After(db, steps).now < ttl <= EMPTY_CACHE_TTL
    requires forall c :: 0 <= c < |After(db, steps).calls| ==> ttl <= After(db, steps).calls[c].baseTTL
    ensures i == j
  {
    SpacingRun(db, steps, p);
    LoadTimes(db, steps);
  }

  /** Every load happened in the past and is cached for the TTL of one of the calls, or for
      the one of empty values. */
  lemma {:induction false} LoadTimes(db: map<string, string>, steps: seq<Step>)
    requires CanRun(db, steps)
    ensures var s := After(db, steps);
            && 0 <= s.now
            && (forall c :: 0 <= c < |s.calls| && s.calls[c].pc.LeadLoad? ==> 0 <= s.calls[c].pc.since <= s.now)
            && forall i :: 0 <= i < |s.loads| ==>
                 && 0 <= s.loads[i].begin <= s.loads[i].end <= s.now
                 && (s.loads[i].ttl == EMPTY_CACHE_TTL
                     || exists c :: 0 <= c < |s.calls| && s.calls[c].baseTTL == s.loads[i].ttl)
  {
    if steps != [] {
      var front, step := steps[..|steps| - 1], steps[|steps| - 1];
      LoadTimes(db, front);
      var s, s' := After(db, front), After(db, steps);
      forall i | 0 <= i < |s'.loads|
        ensures s'.loads[i].ttl == EMPTY_CACHE_TTL
             || exists c :: 0 <= c < |s'.calls| && s'.calls[c].baseTTL == s'.loads[i].ttl
      {
        if i < |s.loads| {
          if s.loads[i].ttl != EMPTY_CACHE_TTL {
            var c :| 0 <= c < |s.calls| && s.calls[c].baseTTL == s.loads[i].ttl;
            assert s'.calls[c].baseTTL == s.loads[i].ttl;
          }
        } else {
          assert s'.calls[step.c].baseTTL == s.calls[step.c].baseTTL;
        }
      }
    }
  }

  // ---------- Beyond one process ----------

  /** Successful loads of a key on which Redis did not fail are a TTL apart. */
  ghost predicate Spaced(s: World) {
    forall i, j :: 0 <= i < j < |s.loads| && s.loads[i].key == s.loads[j].key && s.loads[i].key !in s.faults ==>
      Until(s.loads[i]) <= s.loads[j].begin
  }

  /** A call misses twice and is about to run the loader. */
  lemma ReachLoader(db: map<string, string>, steps: seq<Step>, s: World, p: nat)
    returns (longer: seq<Step>, s': World)
    requires CanRun(db, steps) && s == After(db, steps)
    requires KEY !in s.store && Slot(p, KEY) !in s.inFlight
    ensures CanRun(db, longer) && s' == After(db, longer)
    ensures forall processes: set<nat> :: BeginIn(steps, processes) && p in processes ==> BeginIn(longer, processes)
    ensures s'.calls == s.calls + [Call(p, KEY, 10, LeadLoad(|s.flights|, s.now))]
    ensures s'.flights == s.flights + [Flight(Slot(p, KEY), |s.calls|, None)]
    ensures s'.inFlight == s.inFlight[Slot(p, KEY) := |s.flights|]
    ensures s' == s.(calls := s'.calls, flights := s'.flights, inFlight := s'.inFlight)
  {
    hide CanRun, After;
    var c := |s.calls|;
    longer, s' := Extend(db, steps, s, Begin(p, KEY, 10));
    longer, s' := Extend(db, longer, s', StepCall(c, true, 0));
    longer, s' := Extend(db, longer, s', StepCall(c, true, 0));
    assert s'.calls == s.calls + [Call(p, KEY, 10, LeadGet(|s.flights|))];
    longer, s' := Extend(db, longer, s', StepCall(c, true, 0));
    longer, s' := Extend(db, longer, s', StepCall(c, true, 0));
    assert s'.calls == s.calls + [Call(p, KEY, 10, LeadLoad(|s.flights|, s.now))];
  }

  const KEY: string := "k"

  lemma BothReachLoader(db: map<string, string>, p: nat, q: nat) returns (steps: seq<Step>, s: World)
    requires p != q
    ensures CanRun(db, steps) && s == After(db, steps) && BeginIn(steps, {p, q})
    ensures s.calls == [Call(p, KEY, 10, LeadLoad(0, 0)), Call(q, KEY, 10, LeadLoad(1, 0))]
    ensures s.loads == [] && s.faults == {} && s.now == 0
  {
    steps, s := [], Init(db);
    steps, s := ReachLoader(db, steps, s, p);
    steps, s := ReachLoader(db, steps, s, q);
  }

  /** Two processes do not share their flight tables: both miss and both run the loader. */
  lemma TwoProcessesLoad(db: map<string, string>, p: nat, q: nat) returns (steps: seq<Step>)
    requires p != q
    ensures CanRun(db, steps) && BeginIn(steps, {p, q}) && !Spaced(After(db, steps))
  {
    hide CanRun, After;
    var s: World;
    steps, s := BothReachLoader(db, p, q);
    steps, s := Extend(db, steps, s, StepCall(0, true, 0));
    steps, s := Extend(db, steps, s, StepCall(1, true, 0));
    assert s.loads[0].begin == s.loads[1].begin == 0 && s.loads[0].key == s.loads[1].key == KEY;
  }

  /** Exactly which deployments keep loads a TTL apart in every run: those where all calls
      run in one process. */
  lemma SpacedExactly(db: map<string, string>, processes: set<nat>)
    ensures (forall steps: seq<Step> :: CanRun(db, steps) && BeginIn(steps, processes) ==> Spaced(After(db, steps)))
            <==> |processes| <= 1
  {
    hide CanRun, After, Spaced;
    if |processes| <= 1 {
      forall steps: seq<Step> | CanRun(db, steps) && BeginIn(steps, processes) ensures Spaced(After(db, steps)) {
        OneProcessIsSpaced(db, steps, processes);
      }
    } else {
      var p :| p in processes;
      assert |processes - {p}| == |processes| - 1;
      var q :| q in processes - {p};
      var steps := TwoProcessesLoad(db, p, q);
      assert BeginIn(steps, processes);
    }
  }

  lemma OneProcessIsSpaced(db: map<string, string>, steps: seq<Step>, processes: set<nat>)
    requires CanRun(db, steps) && BeginIn(steps, processes) && |processes| <= 1
    ensures Spaced(After(db, steps))
  {
    hide CanRun, After, SpacingInv;
    var p: nat := 0;
    if processes != {} {
      p :| p in processes;
      assert |processes - {p}| == 0;
    }
    assert BeginIn(steps, {p});
    var s := After(db, steps);
    forall i, j | 0 <= i < j < |s.loads| && s.loads[i].key == s.loads[j].key && s.loads[i].key !in s.faults
      ensures Until(s.loads[i]) <= s.loads[j].begin
    {
      LoadsAreSpaced(db, steps, p, i, j);
    }
  }
}
