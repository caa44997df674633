/** Whole calls of Register and whole cache tasks in the step system, with nothing in
    between. */
module RegisterCalls {
  import opened RegisterModel
  import opened RegisterTheorems
  import opened UserKeys

  /** How a call ends if it gets past the validation. */
  function CodeFor(known: bool, check: Fate, hash: Fate, create: Fate, submit: Fate): Code {
    if check != Works then SYSTEM_ERROR
    else if known then USER_EXIST
    else if hash != Works || create != Works then SYSTEM_ERROR
    else if submit == Panics then UNWOUND
    else SUCCESS
  }

  /** A request with an empty field is refused before anything is locked or asked. */
  lemma InvalidRequest(s: World, c: nat, fate: Fate, newId: string, sh: Sharding)
    requires 0 < sh.num && c < |s.calls| && s.calls[c].pc.Validate? && !fate.Panics?
    ensures var call := s.calls[c];
            var invalid := call.req.username == "" || call.req.password == "" || call.req.email == "";
            && Enabled(sh, s, StepCall(c, fate, newId))
            && Apply(sh, s, StepCall(c, fate, newId))
               == s.(calls := s.calls[c := call.(pc := if invalid then Returned(PARAM_INVALID, "") else AcquireShard)])
  {
  }

  /** The check and the hash decide whether the call gets as far as an ID. */
  lemma CheckAndHash(sh: Sharding, steps: seq<Step>, s: World, c: nat, newId: string, check: Fate, hash: Fate)
    returns (longer: seq<Step>, s': World)
    requires 0 < sh.num && CanRun(sh, steps) && s == After(sh, steps)
    requires c < |s.calls| && s.calls[c].pc.CheckEmail? && newId !in s.drawnBy
    requires check != Panics && hash != Panics
    ensures CanRun(sh, longer) && s' == After(sh, longer)
    ensures var known := Stored(s, s.calls[c].req.email);
            s'.calls == s.calls[c := s.calls[c].(pc :=
              if check == Works && !known && hash == Works then Create(newId)
              else ReleaseShard(if check == Works && known then USER_EXIST else SYSTEM_ERROR, ""))]
    ensures s'.rows == s.rows && s'.tasks == s.tasks && s'.locks == s.locks && s'.clashes == s.clashes
  {
    hide CanRun, After, ReplaceKey, ShardOf, Stored;
    longer, s' := Extend(sh, steps, s, StepCall(c, check, ""));
    SameRows(s, s', s.calls[c].req.email);
    if s'.calls[c].pc.HashPassword? {
      longer, s' := Extend(sh, longer, s', StepCall(c, hash, ""));
      if s'.calls[c].pc.DrawId? {
        longer, s' := Extend(sh, longer, s', StepCall(c, Works, newId));
      }
    }
  }

  /** The Create and the submit decide about the row and the cache task. */
  lemma CreateAndSubmit(sh: Sharding, steps: seq<Step>, s: World, c: nat, create: Fate, submit: Fate)
    returns (longer: seq<Step>, s': World)
    requires 0 < sh.num && CanRun(sh, steps) && s == After(sh, steps)
    requires c < |s.calls| && s.calls[c].pc.Create? && !Stored(s, s.calls[c].req.email) && create != Panics
    ensures CanRun(sh, longer) && s' == After(sh, longer)
    ensures var id, email := s.calls[c].pc.id, s.calls[c].req.email;
            && s'.calls == s.calls[c := s.calls[c].(pc :=
                 if create != Works then ReleaseShard(SYSTEM_ERROR, "")
                 else ReleaseShard(if submit == Panics then UNWOUND else SUCCESS, id))]
            && s'.rows == s.rows + (if create != Fails then [Row(id, email)] else [])
            && s'.tasks == s.tasks + (if create == Works && submit == Works then [Task(id, email, SetId)] else [])
    ensures s'.locks == s.locks && s'.clashes == s.clashes
  {
    hide CanRun, After, ReplaceKey, ShardOf, Stored;
    longer, s' := Extend(sh, steps, s, StepCall(c, create, ""));
    if create == Works {
      assert s'.calls[c].pc == SubmitTask(s.calls[c].pc.id);
      longer, s' := Extend(sh, longer, s', StepCall(c, submit, ""));
    }
  }

  /** A valid request, with the mutex of its email free: the answer, the row and the cache
      task in every combination of outcomes; the mutex is free again at the end. */
  lemma RegisterAnswers(sh: Sharding, steps: seq<Step>, s: World, p: nat, req: Request, newId: string,
                        check: Fate, hash: Fate, create: Fate, submit: Fate)
    returns (longer: seq<Step>, s': World)
    requires 0 < sh.num && CanRun(sh, steps) && s == After(sh, steps)
    requires req.username != "" && req.password != "" && req.email != ""
    requires ShardOf(sh, p, req.email) !in s.locks && newId !in s.drawnBy
    requires Panics !in {check, hash, create}
    ensures CanRun(sh, longer) && s' == After(sh, longer) && s'.clashes == s.clashes && s'.locks == s.locks
    ensures var code := CodeFor(Stored(s, req.email), check, hash, create, submit);
            var created := check == Works && !Stored(s, req.email) && hash == Works && create != Fails;
            && |s'.calls| == |s.calls| + 1 && s'.calls[..|s.calls|] == s.calls
            && s'.calls[|s.calls|]
               == Call(p, req, Returned(code, if code == SUCCESS || code == UNWOUND then newId else ""))
            && s'.rows == s.rows + (if created then [Row(newId, req.email)] else [])
            && s'.tasks
               == s.tasks + (if code == SUCCESS && submit == Works then [Task(newId, req.email, SetId)] else [])
  {
    hide CanRun, After, ReplaceKey, ShardOf, Stored;
    var c := |s.calls|;
    longer, s' := ReachCheck(sh, steps, s, p, req);
    SameRows(s, s', req.email);
    longer, s' := CheckAndHash(sh, longer, s', c, newId, check, hash);
    if s'.calls[c].pc.Create? {
      SameRows(s, s', req.email);
      longer, s' := CreateAndSubmit(sh, longer, s', c, create, submit);
    }
    longer, s' := GiveBack(sh, longer, s', c);
    assert s'.locks == s.locks;
  }

  lemma GiveBack(sh: Sharding, steps: seq<Step>, s: World, c: nat) returns (longer: seq<Step>, s': World)
    requires 0 < sh.num && CanRun(sh, steps) && s == After(sh, steps)
    requires c < |s.calls| && s.calls[c].pc.ReleaseShard?
    ensures CanRun(sh, longer) && s' == After(sh, longer)
    ensures s'.calls == s.calls[c := s.calls[c].(pc := Returned(s.calls[c].pc.code, s.calls[c].pc.id))]
    ensures s'.locks == s.locks - {ShardOfCall(sh, s.calls[c])}
    ensures s'.rows == s.rows && s'.tasks == s.tasks && s'.clashes == s.clashes
  {
    hide ReplaceKey, ShardOf, Stored;
    longer, s' := Extend(sh, steps, s, StepCall(c, Works, ""));
  }

  /** A cache task that runs to its end leaves exactly the entries whose commands were
      executed. */
  lemma TaskFills(sh: Sharding, steps: seq<Step>, s: World, t: nat, first: bool, second: bool)
    returns (longer: seq<Step>, s': World)
    requires 0 < sh.num && CanRun(sh, steps) && s == After(sh, steps)
    requires t < |s.tasks| && s.tasks[t].pc.SetId?
    ensures CanRun(sh, longer) && s' == After(sh, longer)
    ensures var id, email := s.tasks[t].id, s.tasks[t].email;
            && s'.tasks == s.tasks[t := s.tasks[t].(pc := Ended)]
            && (first ==> IdKey(email) in s'.cache && s'.cache[IdKey(email)] == id)
            && (second ==> EmailKey(id) in s'.cache && s'.cache[EmailKey(id)] == email)
            && forall key :: (key == IdKey(email) ==> !first) && (key == EmailKey(id) ==> !second) ==>
                 (key in s'.cache <==> key in s.cache) && (key in s.cache ==> s'.cache[key] == s.cache[key])
  {
    hide CanRun, After, ReplaceKey, IdKey, EmailKey;
    KeysAreApart(s.tasks[t].email, s.tasks[t].id);
    longer, s' := Extend(sh, steps, s, StepTask(t, first));
    longer, s' := Extend(sh, longer, s', StepTask(t, second));
  }
}
