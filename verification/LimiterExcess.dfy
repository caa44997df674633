/** When the admission bound can be exceeded. */
module LimiterExcess {
  import opened LimiterModel
  import opened LimiterTheorems
  import opened LimiterWindow

  lemma LevelStepExact(s: Limiter, step: Step, ip: string)
    requires Inv(s) && Enabled(s, step) && Level(Apply(s, step), ip) < BURST
    ensures Level(Apply(s, step), ip) + (if Admits(s, step, ip) then TOKEN else 0)
         == Level(s, ip) + (Apply(s, step).now - s.now)
  {
    assert ip in s.plain ==> GoodBucket(s.plain[ip], s.now);
    if step.StepCall? && s.calls[step.c].pc.TakeToken? {
      TakeAgrees(s, step.c);
    }
  }

  /** Some window ends here in which nothing was wasted: it opens when the bucket was last
      full. */
  lemma {:induction false} TightWindow(steps: seq<Step>, ip: string) returns (i: nat)
    requires CanRun(steps) && Harmless(steps)
    ensures i <= |steps|
    ensures Admissions(steps, i, ip) * TOKEN + Level(After(steps), ip) == BURST + Elapsed(steps, i)
  {
    InvRun(steps);
    LevelStep(After(steps), Tick(0), ip);
    if Level(After(steps), ip) == BURST {
      i := |steps|;
      assert steps[..i] == steps;
    } else {
      var front := steps[..|steps| - 1];
      i := TightWindow(front, ip);
      assert front[..i] == steps[..i];
      InvRun(front);
      LevelStepExact(After(front), steps[|steps| - 1], ip);
    }
  }

  /** One more step, seen from a window that opens at step i. */
  lemma ExtendWindow(steps: seq<Step>, s: Limiter, step: Step, i: nat, ip: string)
    returns (longer: seq<Step>, s': Limiter)
    requires CanRun(steps) && s == After(steps) && Enabled(s, step) && i <= |steps|
    ensures CanRun(longer) && s' == After(longer) && s' == Apply(s, step) && longer == steps + [step]
    ensures forall from: nat :: HarmlessFrom(steps, from) && HarmlessRemoval(s, step) ==> HarmlessFrom(longer, from)
    ensures HarmlessFrom(longer, |longer|)
    ensures Admissions(longer, i, ip) == Admissions(steps, i, ip) + if Admits(s, step, ip) then 1 else 0
    ensures Elapsed(longer, i) == Elapsed(steps, i) + (s'.now - s.now)
  {
    longer, s' := Extend(steps, s, step, 0);
    assert longer[..|longer| - 1] == steps;
    assert longer[..i] == steps[..i];
  }

  /** What the next call of an IP will find. */
  function Stock(s: Limiter, ip: string): int {
    if ip in s.table && s.table[ip] < |s.entries| then Refill(s.entries[s.table[ip]].bucket, s.now) else BURST
  }

  /** The entry is not the one that the table has for the IP. */
  predicate Detached(s: Limiter, ip: string, e: nat) {
    e < |s.entries| && (ip in s.table ==> s.table[ip] != e)
  }

  predicate WellIndexed(s: Limiter, ip: string) {
    ip in s.table ==> s.table[ip] < |s.entries|
  }

  /** Calls of an IP leave other calls and detached entries alone. */
  predicate Apart(s: Limiter, s': Limiter, ip: string) {
    && s'.now == s.now && |s.calls| <= |s'.calls|
    && (forall c :: 0 <= c < |s.calls| ==> s'.calls[c] == s.calls[c])
    && (forall e :: 0 <= e < |s.entries| && Detached(s, ip, e) ==>
          Detached(s', ip, e) && s'.entries[e] == s.entries[e])
  }

  /** A whole AllowIP that is admitted. */
  lemma AdmittedCall(steps: seq<Step>, s: Limiter, ip: string, i: nat) returns (longer: seq<Step>, s': Limiter)
    requires CanRun(steps) && s == After(steps) && i <= |steps|
    requires WellIndexed(s, ip) && TOKEN <= Stock(s, ip)
    ensures CanRun(longer) && s' == After(longer) && steps <= longer
    ensures forall from: nat :: HarmlessFrom(steps, from) ==> HarmlessFrom(longer, from)
    ensures Admissions(longer, i, ip) == Admissions(steps, i, ip) + 1 && Elapsed(longer, i) == Elapsed(steps, i)
    ensures WellIndexed(s', ip) && Stock(s', ip) == Stock(s, ip) - TOKEN && Apart(s, s', ip)
  {
    hide CanRun, After, HarmlessFrom, Quiet, Prompt, Admissions, Elapsed;
    var c := |s.calls|;
    longer, s' := ExtendWindow(steps, s, Arrive(ip), i, ip);
    longer, s' := ExtendWindow(longer, s', StepCall(c), i, ip);
    longer, s' := ExtendWindow(longer, s', StepCall(c), i, ip);
    longer, s' := ExtendWindow(longer, s', StepCall(c), i, ip);
  }

  lemma {:induction false} AdmittedCalls(steps: seq<Step>, s: Limiter, ip: string, i: nat, n: nat)
    returns (longer: seq<Step>, s': Limiter)
    requires CanRun(steps) && s == After(steps) && i <= |steps|
    requires WellIndexed(s, ip) && n * TOKEN <= Stock(s, ip)
    ensures CanRun(longer) && s' == After(longer) && steps <= longer
    ensures forall from: nat :: HarmlessFrom(steps, from) ==> HarmlessFrom(longer, from)
    ensures Admissions(longer, i, ip) == Admissions(steps, i, ip) + n && Elapsed(longer, i) == Elapsed(steps, i)
    ensures WellIndexed(s', ip) && Stock(s', ip) == Stock(s, ip) - n * TOKEN && Apart(s, s', ip)
  {
    hide CanRun, After, HarmlessFrom, Quiet, Prompt, Admissions, Elapsed, Stock;
    if n == 0 {
      longer, s' := steps, s;
    } else {
      longer, s' := AdmittedCalls(steps, s, ip, i, n - 1);
      longer, s' := AdmittedCall(longer, s', ip, i);
    }
  }

  /** After removing the entry of an IP, with every later removal harmless, some window can
      admit more than the bound. */
  ghost predicate CanExceed(steps: seq<Step>, ip: string)
    requires CanRun(steps)
  {
    exists longer: seq<Step>, i: nat ::
      CanRun(longer) && steps + [Remove(ip)] <= longer && HarmlessFrom(longer, |steps| + 1)
      && i <= |longer| && !Bounded(longer, i, ip)
  }

  /** The new bucket admits two hundred calls on top of what the old one has admitted, and a
      call that holds the old one comes on top of those. */
  lemma HarmfulRemovalExceeds(steps: seq<Step>, s: Limiter, ip: string) returns (longer: seq<Step>, i: nat)
    requires CanRun(steps) && Harmless(steps) && s == After(steps)
    requires Enabled(s, Remove(ip)) && ip in s.table && s.table[ip] < |s.entries|
    requires !IsFull(s.entries[s.table[ip]].bucket, s.now) || Held(s, s.table[ip])
    ensures CanRun(longer) && steps + [Remove(ip)] <= longer && HarmlessFrom(longer, |steps| + 1)
    ensures i <= |longer| && !Bounded(longer, i, ip)
  {
    hide CanRun, After, HarmlessFrom, Quiet, Prompt, Admissions, Elapsed;
    InvRun(steps);
    assert AgreeOn(s, ip);
    LevelStep(s, Tick(0), ip);
    i := TightWindow(steps, ip);
    var s': Limiter;
    longer, s' := ExtendWindow(steps, s, Remove(ip), i, ip);
    longer, s' := AdmittedCalls(longer, s', ip, i, 200);
    if IsFull(s.entries[s.table[ip]].bucket, s.now) {
      var c :| 0 <= c < |s.calls| && Holds(s.calls[c].pc, s.table[ip]);
      assert CallInv(s, s.calls[c]) && AgreeOn(s, s.calls[c].ip) && s.calls[c].ip == ip;
      longer, s' := HolderIsAdmitted(longer, s', ip, i, c, s.table[ip]);
    }
  }

  lemma HolderIsAdmitted(steps: seq<Step>, s: Limiter, ip: string, i: nat, c: nat, e: nat)
    returns (longer: seq<Step>, s': Limiter)
    requires CanRun(steps) && s == After(steps) && i <= |steps|
    requires c < |s.calls| && s.calls[c].ip == ip && Holds(s.calls[c].pc, e)
    requires e < |s.entries| && HasToken(s.entries[e].bucket, s.now)
    ensures CanRun(longer) && s' == After(longer) && steps <= longer
    ensures forall from: nat :: HarmlessFrom(steps, from) ==> HarmlessFrom(longer, from)
    ensures Admissions(longer, i, ip) == Admissions(steps, i, ip) + 1 && Elapsed(longer, i) == Elapsed(steps, i)
  {
    hide CanRun, After, HarmlessFrom, Quiet, Prompt, Admissions, Elapsed;
    longer, s' := steps, s;
    if s.calls[c].pc.StampSeen? {
      longer, s' := ExtendWindow(longer, s', StepCall(c), i, ip);
    }
    longer, s' := ExtendWindow(longer, s', StepCall(c), i, ip);
  }

  lemma {:induction false} JoinHarmless(steps: seq<Step>, from: nat)
    requires CanRun(steps) && from <= |steps| && CanRun(steps[..from])
    requires Harmless(steps[..from]) && HarmlessFrom(steps, from)
    ensures Harmless(steps)
    decreases |steps|
  {
    if |steps| == from {
      assert steps[..from] == steps;
    } else {
      var front := steps[..|steps| - 1];
      assert front[..from] == steps[..from];
      JoinHarmless(front, from);
    }
  }

  /** Exactly when a removal lets some window admit more than the bound: when it can be seen
      at all. */
  lemma BoundBreaksExactly(steps: seq<Step>, ip: string)
    requires CanRun(steps) && Harmless(steps)
    requires Enabled(After(steps), Remove(ip)) && ip in After(steps).table
    ensures After(steps).table[ip] < |After(steps).entries|
    ensures var s := After(steps);
            CanExceed(steps, ip)
            <==> !IsFull(s.entries[s.table[ip]].bucket, s.now) || Held(s, s.table[ip])
  {
    hide CanRun, After, HarmlessFrom, Quiet, Prompt, Bounded;
    var s := After(steps);
    InvRun(steps);
    assert AgreeOn(s, ip);
    if !IsFull(s.entries[s.table[ip]].bucket, s.now) || Held(s, s.table[ip]) {
      var _, _ := HarmfulRemovalExceeds(steps, s, ip);
    } else {
      var next, s' := Extend(steps, s, Remove(ip), 0);
      forall longer: seq<Step>, i: nat |
        CanRun(longer) && next <= longer && HarmlessFrom(longer, |next|) && i <= |longer|
        ensures Bounded(longer, i, ip)
      {
        assert longer[..|next|] == next;
        JoinHarmless(longer, |next|);
        AdmissionBound(longer, i, ip);
      }
    }
  }
}
