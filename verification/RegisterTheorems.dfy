/** One account per email, and a cache that tells the truth about the table. */
module RegisterTheorems {
  import opened RegisterModel
  import opened UserKeys

  // ---------- The shard mutexes ----------

  /** Between Lock and Unlock. */
  predicate Inside(pc: CallPc) {
    pc.CheckEmail? || pc.HashPassword? || pc.DrawId? || pc.Create? || pc.SubmitTask? || pc.ReleaseShard?
  }

  ghost predicate LockInv(sh: Sharding, s: World)
    requires 0 < sh.num
  {
    && (forall c :: 0 <= c < |s.calls| && Inside(s.calls[c].pc) ==>
          ShardOfCall(sh, s.calls[c]) in s.locks && s.locks[ShardOfCall(sh, s.calls[c])] == c)
    && (forall m :: m in s.locks ==>
          s.locks[m] < |s.calls| && Inside(s.calls[s.locks[m]].pc) && ShardOfCall(sh, s.calls[s.locks[m]]) == m)
  }

  /** Two calls wait for the same mutex exactly if they run in the same process and the hashes
      of their emails leave the same remainder: no email waits for one of another shard. */
  lemma SameShardExactly(sh: Sharding, c: Call, d: Call)
    requires 0 < sh.num
    ensures ShardOfCall(sh, c) == ShardOfCall(sh, d)
            <==> c.process == d.process && sh.hash(c.req.email) % sh.num == sh.hash(d.req.email) % sh.num
  {
  }

  // ---------- The table ----------

  predicate InTable(s: World, id: string, email: string) {
    Row(id, email) in s.rows
  }

  ghost predicate CallInv(s: World, c: nat)
    requires c < |s.calls|
  {
    var call := s.calls[c];
    match call.pc
    case Create(id) =>
      id in s.drawnBy && s.drawnBy[id] == c && forall i :: 0 <= i < |s.rows| ==> s.rows[i].id != id
    case SubmitTask(id) => id in s.drawnBy && s.drawnBy[id] == c && InTable(s, id, call.req.email)
    case ReleaseShard(code, id) =>
      code == SUCCESS || code == UNWOUND ==>
        id in s.drawnBy && s.drawnBy[id] == c && InTable(s, id, call.req.email)
    case Returned(code, id) =>
      code == SUCCESS || code == UNWOUND ==>
        id in s.drawnBy && s.drawnBy[id] == c && InTable(s, id, call.req.email)
    case _ => true
  }

  ghost predicate TableInv(s: World) {
    && (forall i :: 0 <= i < |s.rows| ==> s.rows[i].id in s.drawnBy)
    && (forall i, j :: 0 <= i < j < |s.rows| ==> s.rows[i].email != s.rows[j].email && s.rows[i].id != s.rows[j].id)
    && (forall c :: 0 <= c < |s.calls| ==> CallInv(s, c))
    && (forall t :: 0 <= t < |s.tasks| ==> InTable(s, s.tasks[t].id, s.tasks[t].email))
  }

  /** An entry of the cache states a row, in one of the two directions. */
  ghost predicate TrueEntry(s: World, key: string, value: string) {
    || (exists email :: key == IdKey(email) && InTable(s, value, email))
    || (exists id :: key == EmailKey(id) && InTable(s, id, value))
  }

  ghost predicate CacheInv(s: World) {
    forall key :: key in s.cache ==> TrueEntry(s, key, s.cache[key])
  }

  /** A call that has seen its email free and has not created it yet. */
  predicate Committed(pc: CallPc) {
    pc.HashPassword? || pc.DrawId? || pc.Create?
  }

  /** All calls run in process p, and what they have seen to be free is still free. */
  ghost predicate OneProcessInv(s: World, p: nat) {
    && s.clashes == 0
    && (forall c :: 0 <= c < |s.calls| ==> s.calls[c].process == p)
    && (forall c :: 0 <= c < |s.calls| && Committed(s.calls[c].pc) ==> !Stored(s, s.calls[c].req.email))
  }

  // ---------- Preservation ----------

  lemma LockStep(sh: Sharding, s: World, step: Step)
    requires 0 < sh.num && LockInv(sh, s) && Enabled(sh, s, step)
    ensures LockInv(sh, Apply(sh, s, step))
  {
    hide ReplaceKey, ShardOf, Stored;
    if step.StepCall? {
      LockCall(sh, s, step.c, step.fate, step.newId);
    }
  }

  lemma LockCall(sh: Sharding, s: World, c: nat, fate: Fate, newId: string)
    requires 0 < sh.num && LockInv(sh, s) && Enabled(sh, s, StepCall(c, fate, newId))
    ensures LockInv(sh, CallNext(sh, s, c, fate, newId))
  {
    hide ReplaceKey, NextPc, ShardOf, Stored;
    var s' := CallNext(sh, s, c, fate, newId);
    var pc := s'.calls[c].pc;
    InsideChanges(s, s.calls[c], fate, newId);
    assert s'.calls == s.calls[c := s.calls[c].(pc := pc)];
  }

  /** The mutex is taken on the way in and given back on the way out. */
  lemma InsideChanges(s: World, call: Call, fate: Fate, newId: string)
    requires !call.pc.Returned?
    ensures Inside(NextPc(s, call, fate, newId))
            <==> call.pc.AcquireShard? || (Inside(call.pc) && !call.pc.ReleaseShard?)
  {
  }

  /** A mutex has one holder. */
  lemma SameMutex(sh: Sharding, s: World, c: nat, d: nat)
    requires 0 < sh.num && LockInv(sh, s) && c < |s.calls| && d < |s.calls|
    requires Inside(s.calls[c].pc) && Inside(s.calls[d].pc)
    requires s.calls[c].process == s.calls[d].process && s.calls[c].req.email == s.calls[d].req.email
    ensures c == d
  {
  }

  lemma CallKeepsCalls(sh: Sharding, s: World, c: nat, fate: Fate, newId: string, d: nat)
    requires 0 < sh.num && TableInv(s) && Enabled(sh, s, StepCall(c, fate, newId)) && d < |s.calls|
    ensures CallInv(CallNext(sh, s, c, fate, newId), d)
  {
    var s' := CallNext(sh, s, c, fate, newId);
    assert CallInv(s, c) && CallInv(s, d);
    assert forall row :: row in s.rows ==> row in s'.rows;
    if s.calls[c].pc.Create? && s'.rows != s.rows {
      assert s'.rows[|s.rows|] == Row(s.calls[c].pc.id, s.calls[c].req.email);
    }
  }

  lemma TableCall(sh: Sharding, s: World, c: nat, fate: Fate, newId: string)
    requires 0 < sh.num && TableInv(s) && Enabled(sh, s, StepCall(c, fate, newId))
    ensures TableInv(CallNext(sh, s, c, fate, newId))
  {
    hide ReplaceKey, ShardOf;
    var s' := CallNext(sh, s, c, fate, newId);
    assert forall row :: row in s.rows ==> row in s'.rows;
    assert CallInv(s, c);
    forall d | 0 <= d < |s'.calls| ensures CallInv(s', d) {
      CallKeepsCalls(sh, s, c, fate, newId, d);
    }
  }

  lemma TableStep(sh: Sharding, s: World, step: Step)
    requires 0 < sh.num && TableInv(s) && Enabled(sh, s, step)
    ensures TableInv(Apply(sh, s, step))
  {
    hide ReplaceKey, CallNext;
    var s' := Apply(sh, s, step);
    if step.StepCall? {
      TableCall(sh, s, step.c, step.fate, step.newId);
    } else {
      assert s'.rows == s.rows;
      forall d | 0 <= d < |s'.calls| ensures CallInv(s', d) {
        assert d < |s.calls| ==> CallInv(s, d);
      }
    }
  }

  lemma CacheStep(sh: Sharding, s: World, step: Step)
    requires 0 < sh.num && TableInv(s) && CacheInv(s) && Enabled(sh, s, step)
    ensures CacheInv(Apply(sh, s, step))
  {
    hide ReplaceKey;
    var s' := Apply(sh, s, step);
    assert forall row :: row in s.rows ==> row in s'.rows;
    forall key | key in s'.cache ensures TrueEntry(s', key, s'.cache[key]) {
      if key in s.cache && s'.cache[key] == s.cache[key] {
        assert TrueEntry(s, key, s.cache[key]);
        if email :| key == IdKey(email) && InTable(s, s.cache[key], email) {
          assert InTable(s', s.cache[key], email);
        } else {
          var id :| key == EmailKey(id) && InTable(s, id, s.cache[key]);
          assert InTable(s', id, s.cache[key]);
        }
      } else {
        assert InTable(s', s.tasks[step.t].id, s.tasks[step.t].email);
      }
    }
  }

  lemma OneProcessCall(sh: Sharding, s: World, c: nat, fate: Fate, newId: string, p: nat)
    requires 0 < sh.num && LockInv(sh, s) && OneProcessInv(s, p) && Enabled(sh, s, StepCall(c, fate, newId))
    ensures OneProcessInv(CallNext(sh, s, c, fate, newId), p)
  {
    hide ReplaceKey, ShardOf;
    var s' := CallNext(sh, s, c, fate, newId);
    forall d | 0 <= d < |s'.calls| && Committed(s'.calls[d].pc) ensures !Stored(s', s'.calls[d].req.email) {
      if s.calls[c].pc.Create? && d != c && s.calls[d].req.email == s.calls[c].req.email {
        SameMutex(sh, s, c, d);
      }
      assert Committed(s.calls[d].pc) ==> !Stored(s, s.calls[d].req.email);
    }
  }

  lemma OneProcessStep(sh: Sharding, s: World, step: Step, p: nat)
    requires 0 < sh.num && LockInv(sh, s) && OneProcessInv(s, p) && Enabled(sh, s, step)
    requires step.Arrive? ==> step.process == p
    ensures OneProcessInv(Apply(sh, s, step), p)
  {
    hide ReplaceKey, ShardOf, CallNext;
    if step.StepCall? {
      OneProcessCall(sh, s, step.c, step.fate, step.newId, p);
    } else {
      assert Apply(sh, s, step).rows == s.rows;
    }
  }

  lemma {:induction false} InvRun(sh: Sharding, steps: seq<Step>)
    requires 0 < sh.num && CanRun(sh, steps)
    ensures LockInv(sh, After(sh, steps)) && TableInv(After(sh, steps)) && CacheInv(After(sh, steps))
  {
    if steps != [] {
      var front, step := steps[..|steps| - 1], steps[|steps| - 1];
      InvRun(sh, front);
      LockStep(sh, After(sh, front), step);
      TableStep(sh, After(sh, front), step);
      CacheStep(sh, After(sh, front), step);
    }
  }

  /** Every call of the run arrives in one of these processes. */
  predicate ArrivalsIn(steps: seq<Step>, processes: set<nat>) {
    forall i :: 0 <= i < |steps| && steps[i].Arrive? ==> steps[i].process in processes
  }

  lemma {:induction false} OneProcessRun(sh: Sharding, steps: seq<Step>, p: nat)
    requires 0 < sh.num && CanRun(sh, steps) && ArrivalsIn(steps, {p})
    ensures OneProcessInv(After(sh, steps), p)
  {
    if steps != [] {
      var front, step := steps[..|steps| - 1], steps[|steps| - 1];
      assert forall i :: 0 <= i < |front| ==> front[i] == steps[i];
      OneProcessRun(sh, front, p);
      InvRun(sh, front);
      OneProcessStep(sh, After(sh, front), step, p);
    }
  }

  // ---------- Results ----------

  /** Only one call at a time is inside the critical section for an email in a process, for
      any hash function and any number of shards. */
  lemma MutualExclusion(sh: Sharding, steps: seq<Step>, c: nat, d: nat)
    requires 0 < sh.num && CanRun(sh, steps)
    requires c < |After(sh, steps).calls| && d < |After(sh, steps).calls|
    requires Inside(After(sh, steps).calls[c].pc) && Inside(After(sh, steps).calls[d].pc)
    requires After(sh, steps).calls[c].process == After(sh, steps).calls[d].process
    requires After(sh, steps).calls[c].req.email == After(sh, steps).calls[d].req.email
    ensures c == d
  {
    InvRun(sh, steps);
    SameMutex(sh, After(sh, steps), c, d);
  }

  /** Within one process the mutexes alone keep every Create away from an email that is
      already stored. */
  lemma NoClashInOneProcess(sh: Sharding, steps: seq<Step>, p: nat, c: nat)
    requires 0 < sh.num && CanRun(sh, steps) && ArrivalsIn(steps, {p})
    ensures After(sh, steps).clashes == 0
    ensures c < |After(sh, steps).calls| && After(sh, steps).calls[c].pc.Create? ==>
              !Stored(After(sh, steps), After(sh, steps).calls[c].req.email)
  {
    OneProcessRun(sh, steps, p);
  }

  /** The call has ended with its account created. */
  predicate Registered(call: Call) {
    call.pc.Returned? && (call.pc.code == SUCCESS || call.pc.code == UNWOUND)
  }

  /** At most one call per email returns SUCCESS or panics behind its Create, in any number
      of processes; its row, and no other with that email, is in the table. */
  lemma OneSuccessPerEmail(sh: Sharding, steps: seq<Step>, c: nat, d: nat)
    requires 0 < sh.num && CanRun(sh, steps)
    requires c < |After(sh, steps).calls| && d < |After(sh, steps).calls|
    requires Registered(After(sh, steps).calls[c])
    ensures Row(After(sh, steps).calls[c].pc.id, After(sh, steps).calls[c].req.email) in After(sh, steps).rows
    ensures forall row :: row in After(sh, steps).rows && row.email == After(sh, steps).calls[c].req.email ==>
              row.id == After(sh, steps).calls[c].pc.id
    ensures (Registered(After(sh, steps).calls[d])
             && After(sh, steps).calls[d].req.email == After(sh, steps).calls[c].req.email) ==> c == d
  {
    InvRun(sh, steps);
    var s := After(sh, steps);
    assert CallInv(s, c) && CallInv(s, d);
  }

  /** Whatever order tasks run in, are skipped or dropped, and whatever expires, a cached
      answer names a row, and the two directions are inverse to each other. */
  lemma CacheAgrees(sh: Sharding, steps: seq<Step>, email: string, id: string)
    requires 0 < sh.num && CanRun(sh, steps)
    ensures var s := After(sh, steps);
            && (IdKey(email) in s.cache ==> InTable(s, s.cache[IdKey(email)], email))
            && (EmailKey(id) in s.cache ==> InTable(s, id, s.cache[EmailKey(id)]))
            && (IdKey(email) in s.cache && EmailKey(id) in s.cache ==>
                  (s.cache[IdKey(email)] == id <==> s.cache[EmailKey(id)] == email))
  {
    hide ReplaceKey, LockInv, CallInv, CanRun, After;
    InvRun(sh, steps);
    var s := After(sh, steps);
    if IdKey(email) in s.cache {
      assert TrueEntry(s, IdKey(email), s.cache[IdKey(email)]);
      EntryByEmail(s, email);
    }
    if EmailKey(id) in s.cache {
      assert TrueEntry(s, EmailKey(id), s.cache[EmailKey(id)]);
      EntryById(s, id);
    }
  }

  lemma EntryByEmail(s: World, email: string)
    requires IdKey(email) in s.cache && TrueEntry(s, IdKey(email), s.cache[IdKey(email)])
    ensures InTable(s, s.cache[IdKey(email)], email)
  {
    hide ReplaceKey, IdKey, EmailKey;
    var key := IdKey(email);
    if e :| key == IdKey(e) && InTable(s, s.cache[key], e) {
      KeysAreApart(email, e);
    } else {
      var i :| key == EmailKey(i) && InTable(s, i, s.cache[key]);
      KeysAreApart(email, i);
    }
  }

  lemma EntryById(s: World, id: string)
    requires EmailKey(id) in s.cache && TrueEntry(s, EmailKey(id), s.cache[EmailKey(id)])
    ensures InTable(s, id, s.cache[EmailKey(id)])
  {
    hide ReplaceKey, IdKey, EmailKey;
    var key := EmailKey(id);
    if i :| key == EmailKey(i) && InTable(s, i, s.cache[key]) {
      KeysAreApart(id, i);
    } else {
      var e :| key == IdKey(e) && InTable(s, s.cache[key], e);
      KeysAreApart(e, id);
    }
  }

  /** A call waits only for a call that can go on: no deadlock. */
  lemma HolderCanGoOn(sh: Sharding, steps: seq<Step>, c: nat)
    requires 0 < sh.num && CanRun(sh, steps) && c < |After(sh, steps).calls|
    requires After(sh, steps).calls[c].pc.AcquireShard?
    ensures var s := After(sh, steps);
            || (forall fate: Fate, newId :: !fate.Panics? ==> Enabled(sh, s, StepCall(c, fate, newId)))
            || exists d :: 0 <= d < |s.calls| && d != c && Inside(s.calls[d].pc)
                 && forall fate: Fate, newId :: !fate.Panics? && newId !in s.drawnBy ==>
                      Enabled(sh, s, StepCall(d, fate, newId))
  {
    InvRun(sh, steps);
    var s := After(sh, steps);
    if ShardOfCall(sh, s.calls[c]) in s.locks {
      var d := s.locks[ShardOfCall(sh, s.calls[c])];
      assert Inside(s.calls[d].pc) && d != c;
    }
  }

  // ---------- Beyond one process ----------

  lemma Extend(sh: Sharding, steps: seq<Step>, s: World, step: Step) returns (longer: seq<Step>, s': World)
    requires 0 < sh.num && CanRun(sh, steps) && s == After(sh, steps) && Enabled(sh, s, step)
    ensures CanRun(sh, longer) && s' == After(sh, longer) && s' == Apply(sh, s, step)
    ensures longer == steps + [step]
  {
    longer, s' := steps + [step], Apply(sh, s, step);
    assert longer[..|longer| - 1] == steps;
  }

  /** A call takes its mutex, if it is free. */
  lemma ReachCheck(sh: Sharding, steps: seq<Step>, s: World, p: nat, req: Request)
    returns (longer: seq<Step>, s': World)
    requires 0 < sh.num && CanRun(sh, steps) && s == After(sh, steps)
    requires req.username != "" && req.password != "" && req.email != ""
    requires ShardOf(sh, p, req.email) !in s.locks
    ensures CanRun(sh, longer) && s' == After(sh, longer)
    ensures forall processes: set<nat> :: ArrivalsIn(steps, processes) && p in processes ==>
              ArrivalsIn(longer, processes)
    ensures s' == s.(calls := s.calls + [Call(p, req, CheckEmail)],
                     locks := s.locks[ShardOf(sh, p, req.email) := |s.calls|])
  {
    hide ReplaceKey, Stored, ShardOf, CanRun, After;
    var c := |s.calls|;
    var s1;
    longer, s1 := Extend(sh, steps, s, Arrive(p, req));
    longer, s1 := Extend(sh, longer, s1, StepCall(c, Works, ""));
    assert s1 == s.(calls := s.calls + [Call(p, req, AcquireShard)]);
    longer, s' := Extend(sh, longer, s1, StepCall(c, Works, ""));
    assert s'.calls == s.calls + [Call(p, req, CheckEmail)];
  }

  /** It finds its email free and gets as far as its Create, with nothing in between. */
  lemma ReachCreate(sh: Sharding, steps: seq<Step>, s: World, p: nat, req: Request, id: string)
    returns (longer: seq<Step>, s': World)
    requires 0 < sh.num && CanRun(sh, steps) && s == After(sh, steps)
    requires req.username != "" && req.password != "" && req.email != ""
    requires !Stored(s, req.email) && id !in s.drawnBy
    requires forall m :: m in s.locks ==> m.process != p
    ensures CanRun(sh, longer) && s' == After(sh, longer)
    ensures forall processes: set<nat> :: ArrivalsIn(steps, processes) && p in processes ==>
              ArrivalsIn(longer, processes)
    ensures s'.calls == s.calls + [Call(p, req, Create(id))] && s'.rows == s.rows && s'.clashes == s.clashes
    ensures s'.drawnBy == s.drawnBy[id := |s.calls|]
    ensures s'.locks == s.locks[ShardOf(sh, p, req.email) := |s.calls|]
  {
    hide ReplaceKey, Stored, ShardOf, CanRun, After;
    var c := |s.calls|;
    var s1, s2;
    ShardProcess(sh, p, req.email);
    longer, s1 := ReachCheck(sh, steps, s, p, req);
    SameRows(s, s1, req.email);
    longer, s2 := Extend(sh, longer, s1, StepCall(c, Works, ""));
    assert s2.calls == s.calls + [Call(p, req, HashPassword)];
    longer, s' := Extend(sh, longer, s2, StepCall(c, Works, ""));
    longer, s' := Extend(sh, longer, s', StepCall(c, Works, id));
  }

  lemma ShardProcess(sh: Sharding, p: nat, email: string)
    requires 0 < sh.num
    ensures ShardOf(sh, p, email).process == p
  {
  }

  lemma SameRows(s: World, s': World, email: string)
    requires s.rows == s'.rows
    ensures Stored(s, email) == Stored(s', email)
  {
  }

  const USER := Request("u", "p", "e")

  lemma BothReachCreate(sh: Sharding, p: nat, q: nat) returns (steps: seq<Step>, s: World)
    requires 0 < sh.num && p != q
    ensures CanRun(sh, steps) && s == After(sh, steps) && ArrivalsIn(steps, {p, q})
    ensures s.calls == [Call(p, USER, Create("a")), Call(q, USER, Create("b"))]
    ensures s.rows == [] && s.clashes == 0
  {
    hide ReplaceKey, ShardOf;
    steps, s := [], Init();
    steps, s := ReachCreate(sh, steps, s, p, USER, "a");
    ShardProcess(sh, p, "e");
    steps, s := ReachCreate(sh, steps, s, q, USER, "b");
  }

  /** Two processes do not share their mutexes: both can see an email free, and then only
      the unique column stops the second Create. */
  lemma TwoProcessesClash(sh: Sharding, p: nat, q: nat) returns (steps: seq<Step>)
    requires 0 < sh.num && p != q
    ensures CanRun(sh, steps) && ArrivalsIn(steps, {p, q})
    ensures After(sh, steps).clashes == 1 && |After(sh, steps).rows| == 1
  {
    hide ReplaceKey, ShardOf;
    var s: World;
    steps, s := BothReachCreate(sh, p, q);
    steps, s := Extend(sh, steps, s, StepCall(0, Works, ""));
    assert s.rows == [Row("a", "e")] && s.rows[0].email == "e";
    steps, s := Extend(sh, steps, s, StepCall(1, Works, ""));
  }

  lemma OnlyProcess(processes: set<nat>) returns (p: nat)
    requires |processes| <= 1
    ensures processes <= {p}
  {
    p := 0;
    if processes != {} {
      p :| p in processes;
      assert |processes - {p}| == 0;
    }
  }

  /** Exactly which deployments never attempt a Create for a stored email: those where all
      calls run in one process. */
  lemma NoClashExactly(sh: Sharding, processes: set<nat>)
    requires 0 < sh.num
    ensures (forall steps: seq<Step> ::
               CanRun(sh, steps) && ArrivalsIn(steps, processes) ==> After(sh, steps).clashes == 0)
            <==> |processes| <= 1
  {
    hide CanRun, After;
    if |processes| <= 1 {
      var p := OnlyProcess(processes);
      forall steps: seq<Step> | CanRun(sh, steps) && ArrivalsIn(steps, processes)
        ensures After(sh, steps).clashes == 0
      {
        NoClashInOneProcess(sh, steps, p, 0);
      }
    } else {
      var p :| p in processes;
      assert |processes - {p}| == |processes| - 1;
      var q :| q in processes - {p};
      var steps := TwoProcessesClash(sh, p, q);
      assert ArrivalsIn(steps, processes);
    }
  }
}
