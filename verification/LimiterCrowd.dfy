/** An admission bound for every run, harmful removals included. */
module LimiterCrowd {
  import opened LimiterModel
  import opened LimiterTheorems
  import opened LimiterWindow

  /** An entry from which a call of the IP can still take a token: the table has it for the
      IP, or such a call holds it. */
  predicate Usable(s: Limiter, ip: string, e: nat) {
    || (ip in s.table && s.table[ip] == e)
    || exists c :: 0 <= c < |s.calls| && s.calls[c].ip == ip && Holds(s.calls[c].pc, e)
  }

  /** Among the first n entries, how many are usable. */
  function Crowd(s: Limiter, ip: string, n: nat): nat {
    if n == 0 then 0 else Crowd(s, ip, n - 1) + if Usable(s, ip, n - 1) then 1 else 0
  }

  /** And what their buckets hold. */
  function Stockpile(s: Limiter, ip: string, n: nat): int
    requires n <= |s.entries|
  {
    if n == 0 then 0
    else
      Stockpile(s, ip, n - 1)
      + if Usable(s, ip, n - 1) then Refill(s.entries[n - 1].bucket, s.now) else 0
  }

  // ---------- What every run keeps ----------

  ghost predicate Sound(s: Limiter) {
    && (forall e :: 0 <= e < |s.entries| ==> GoodBucket(s.entries[e].bucket, s.now))
    && (forall ip :: ip in s.table ==> s.table[ip] < |s.entries|)
    && (forall c :: 0 <= c < |s.calls| ==>
          (s.calls[c].pc.StampSeen? || s.calls[c].pc.TakeToken?) ==> s.calls[c].pc.entry < |s.entries|)
  }

  lemma {:induction false} SoundRun(steps: seq<Step>)
    requires CanRun(steps)
    ensures Sound(After(steps))
  {
    if steps != [] {
      SoundRun(steps[..|steps| - 1]);
      SoundStep(After(steps[..|steps| - 1]), steps[|steps| - 1]);
    }
  }

  lemma SoundStep(s: Limiter, step: Step)
    requires Sound(s) && Enabled(s, step)
    ensures Sound(Apply(s, step))
  {
  }

  // ---------- One step ----------

  predicate Creates(s: Limiter, step: Step, ip: string) {
    && step.StepCall? && step.c < |s.calls| && s.calls[step.c].pc.LoadOrStore?
    && s.calls[step.c].ip == ip && ip !in s.table
  }

  /** No old entry becomes usable by a step. */
  lemma UsableBefore(s: Limiter, step: Step, ip: string, e: nat)
    requires Sound(s) && Enabled(s, step) && e < |s.entries| && Usable(Apply(s, step), ip, e)
    ensures Usable(s, ip, e)
  {
    var s' := Apply(s, step);
    if c :| 0 <= c < |s'.calls| && s'.calls[c].ip == ip && Holds(s'.calls[c].pc, e) {
      assert c < |s.calls| && s.calls[c].ip == ip;
      if step == StepCall(c) {
        assert s.calls[c].pc.LoadOrStore? || Holds(s.calls[c].pc, e);
      } else {
        assert Holds(s.calls[c].pc, e);
      }
    }
  }

  /** What an admission of the IP takes from entry e. */
  function Taken(s: Limiter, step: Step, ip: string, e: nat): int
    requires Enabled(s, step)
  {
    if Admits(s, step, ip) && s.calls[step.c].pc.entry == e then TOKEN else 0
  }

  /** An old bucket gains no more than the time that passes, and an admission takes a token
      from the one it uses. */
  lemma BucketStep(s: Limiter, step: Step, ip: string, e: nat)
    requires Sound(s) && Enabled(s, step) && e < |s.entries|
    ensures var s' := Apply(s, step);
            && e < |s'.entries|
            && 0 <= Refill(s'.entries[e].bucket, s'.now)
            && Refill(s'.entries[e].bucket, s'.now) + Taken(s, step, ip, e)
               <= Refill(s.entries[e].bucket, s.now) + (s'.now - s.now)
            && Taken(s, step, ip, e) <= Refill(s.entries[e].bucket, s.now)
            && (Taken(s, step, ip, e) > 0 ==> Usable(s, ip, e))
  {
    SoundStep(s, step);
  }

  function TakenBelow(s: Limiter, step: Step, ip: string, n: nat): int
    requires Enabled(s, step)
  {
    if Admits(s, step, ip) && s.calls[step.c].pc.entry < n then TOKEN else 0
  }

  lemma MoreOrEqual(a: int, b: int, d: int)
    requires a <= b && 0 <= d
    ensures d * a <= d * b
  {
  }

  lemma {:induction false} CrowdStep(s: Limiter, step: Step, ip: string, n: nat, d: nat)
    requires Sound(s) && Enabled(s, step) && n <= |s.entries| <= |Apply(s, step).entries|
    requires Apply(s, step).now == s.now + d
    ensures Crowd(Apply(s, step), ip, n) <= Crowd(s, ip, n)
    ensures Stockpile(Apply(s, step), ip, n) + TakenBelow(s, step, ip, n)
         <= Stockpile(s, ip, n) + d * Crowd(s, ip, n)
  {
    hide Apply, Refill, Usable, Sound;
    if n > 0 {
      var s', e := Apply(s, step), n - 1;
      CrowdStep(s, step, ip, e, d);
      BucketStep(s, step, ip, e);
      if Usable(s', ip, e) {
        UsableBefore(s, step, ip, e);
      }
      var used := if Usable(s, ip, e) then 1 else 0;
      var b := if Usable(s, ip, e) then Refill(s.entries[e].bucket, s.now) else 0;
      var b' := if Usable(s', ip, e) then Refill(s'.entries[e].bucket, s'.now) else 0;
      OneMore(d, Stockpile(s', ip, e) + TakenBelow(s, step, ip, e), Stockpile(s, ip, e), Crowd(s, ip, e),
              b' + Taken(s, step, ip, e), b, used, Crowd(s, ip, n));
      assert Stockpile(s', ip, n) == Stockpile(s', ip, e) + b';
      assert Stockpile(s, ip, n) == Stockpile(s, ip, e) + b;
      assert TakenBelow(s, step, ip, n) == TakenBelow(s, step, ip, e) + Taken(s, step, ip, e);
    }
  }

  lemma OneMore(d: nat, left: int, stock: int, crowd: nat, left': int, stock': int, used: nat, crowd': nat)
    requires left <= stock + d * crowd && used <= 1 && crowd' == crowd + used
    requires left' <= stock' + if used == 1 then d else 0
    ensures left + left' <= stock + stock' + d * crowd'
  {
    assert used == 1 ==> d * (crowd + 1) == d * crowd + d;
  }

  // ---------- The bound ----------

  function Absent(s: Limiter, ip: string): nat {
    if ip in s.table then 0 else 1
  }

  function AllUsable(s: Limiter, ip: string): nat { Crowd(s, ip, |s.entries|) }

  function AllStock(s: Limiter, ip: string): int { Stockpile(s, ip, |s.entries|) }

  /** One step adds an entry at most, with a full bucket. */
  lemma WholeStep(s: Limiter, step: Step, ip: string)
    requires Sound(s) && Enabled(s, step)
    ensures var s' := Apply(s, step);
            var made := if Creates(s, step, ip) then 1 else 0;
            && s.now <= s'.now
            && AllUsable(s', ip) <= AllUsable(s, ip) + made
            && AllStock(s', ip) + (if Admits(s, step, ip) then TOKEN else 0)
               <= AllStock(s, ip) + (s'.now - s.now) * AllUsable(s, ip) + made * BURST
  {
    var s' := Apply(s, step);
    SoundStep(s, step);
    CrowdStep(s, step, ip, |s.entries|, s'.now - s.now);
    assert Admits(s, step, ip) ==> s.calls[step.c].pc.entry < |s.entries|;
    if |s'.entries| == |s.entries| + 1 {
      NewEntry(s, step, ip);
    }
  }

  lemma NewEntry(s: Limiter, step: Step, ip: string)
    requires Sound(s) && Enabled(s, step) && |Apply(s, step).entries| == |s.entries| + 1
    ensures Usable(Apply(s, step), ip, |s.entries|) ==> Creates(s, step, ip)
    ensures Refill(Apply(s, step).entries[|s.entries|].bucket, Apply(s, step).now) <= BURST
  {
    var s', e := Apply(s, step), |s.entries|;
    if c :| 0 <= c < |s'.calls| && s'.calls[c].ip == ip && Holds(s'.calls[c].pc, e) {
      assert c < |s.calls| && !Holds(s.calls[c].pc, e);
    }
  }

  /** The buckets that calls of an IP can draw on in the steps from number i on: the entries
      usable at the start, one to be made if the table has none, and one for every removal. */
  ghost function Sources(steps: seq<Step>, i: nat, ip: string): nat
    requires CanRun(steps) && i <= |steps|
    decreases |steps|
  {
    if |steps| == i then AllUsable(After(steps), ip) + Absent(After(steps), ip)
    else
      var front := steps[..|steps| - 1];
      Sources(front, i, ip)
      + if steps[|steps| - 1] == Remove(ip) && ip in After(front).table then 1 else 0
  }

  lemma {:induction false} FullAtMost(s: Limiter, ip: string, n: nat)
    requires Sound(s) && n <= |s.entries|
    ensures Stockpile(s, ip, n) <= Crowd(s, ip, n) * BURST
  {
    if n > 0 {
      FullAtMost(s, ip, n - 1);
    }
  }

  lemma {:induction false} NotNegative(s: Limiter, ip: string, n: nat)
    requires Sound(s) && n <= |s.entries|
    ensures 0 <= Stockpile(s, ip, n)
  {
    if n > 0 {
      NotNegative(s, ip, n - 1);
    }
  }

  /** The arithmetic of one step of the balance. */
  lemma BalanceArithmetic(taken: int, stock: int, stock': int, used: nat, shares: nat, d: int, x: int,
                          made: nat, got: int)
    requires taken + stock <= shares * x && used <= shares && 0 <= d && BURST <= x && made <= 1
    requires stock' + got <= stock + d * used + made * BURST
    ensures taken + got + stock' <= (shares + made) * (x + d)
  {
    MoreOrEqual(used, shares, d);
    assert (shares + made) * (x + d) == shares * x + d * shares + made * (x + d);
  }

  /** The entries that may be used, less the one still to be made. */
  ghost function Shares(steps: seq<Step>, i: nat, ip: string): int
    requires CanRun(steps) && i <= |steps|
  {
    Sources(steps, i, ip) - Absent(After(steps), ip)
  }

  lemma SharesStep(steps: seq<Step>, i: nat, ip: string)
    requires CanRun(steps) && i < |steps|
    ensures var front, step := steps[..|steps| - 1], steps[|steps| - 1];
            Shares(steps, i, ip) == Shares(front, i, ip) + if Creates(After(front), step, ip) then 1 else 0
  {
  }

  lemma CrowdStart(steps: seq<Step>, ip: string)
    requires CanRun(steps)
    ensures Elapsed(steps, |steps|) == Admissions(steps, |steps|, ip) == 0
    ensures AllUsable(After(steps), ip) <= Shares(steps, |steps|, ip)
    ensures AllStock(After(steps), ip) <= Shares(steps, |steps|, ip) * BURST
  {
    assert steps[..|steps|] == steps;
    SoundRun(steps);
    FullAtMost(After(steps), ip, |After(steps).entries|);
  }

  /** Elapsed time and admissions, step by step. */
  lemma WindowStep(steps: seq<Step>, i: nat, ip: string)
    requires CanRun(steps) && i < |steps|
    ensures var front, step := steps[..|steps| - 1], steps[|steps| - 1];
            && Elapsed(steps, i) == Elapsed(front, i) + (After(steps).now - After(front).now)
            && Admissions(steps, i, ip) == Admissions(front, i, ip) + if Admits(After(front), step, ip) then 1 else 0
  {
    assert steps[..|steps| - 1][..i] == steps[..i];
  }

  lemma {:induction false} CrowdBalance(steps: seq<Step>, i: nat, ip: string)
    requires CanRun(steps) && i <= |steps|
    ensures 0 <= Elapsed(steps, i) && AllUsable(After(steps), ip) <= Shares(steps, i, ip)
    ensures Admissions(steps, i, ip) * TOKEN + AllStock(After(steps), ip)
         <= Shares(steps, i, ip) * (BURST + Elapsed(steps, i))
    decreases |steps|
  {
    hide AllStock, AllUsable, Shares, Sound, Elapsed, Admissions, Admits, Apply, Enabled;
    if |steps| == i {
      CrowdStart(steps, ip);
    } else {
      var front, step := steps[..|steps| - 1], steps[|steps| - 1];
      var s, s' := After(front), After(steps);
      CrowdBalance(front, i, ip);
      SoundRun(front);
      WholeStep(s, step, ip);
      SharesStep(steps, i, ip);
      WindowStep(steps, i, ip);
      BalanceArithmetic(Admissions(front, i, ip) * TOKEN, AllStock(s, ip), AllStock(s', ip), AllUsable(s, ip),
                        Shares(front, i, ip), s'.now - s.now, BURST + Elapsed(front, i),
                        if Creates(s, step, ip) then 1 else 0, if Admits(s, step, ip) then TOKEN else 0);
    }
  }

  lemma InTokens(admitted: nat, n: nat, t: int, seconds: nat)
    requires admitted * TOKEN <= n * (BURST + t) && t <= seconds * SECOND
    ensures admitted <= n * (200 + 100 * seconds)
  {
    MoreOrEqual(BURST + t, (200 + 100 * seconds) * TOKEN, n);
    var bound := n * (200 + 100 * seconds);
    assert n * ((200 + 100 * seconds) * TOKEN) == bound * TOKEN;
  }

  /** In any run and any window, whatever is removed and whenever, an IP is admitted at most
      200 + 100 * T times in T seconds for each bucket it can draw on. */
  lemma CrowdBound(steps: seq<Step>, i: nat, ip: string)
    requires CanRun(steps) && i <= |steps|
    ensures Admissions(steps, i, ip) * TOKEN <= Sources(steps, i, ip) * (BURST + Elapsed(steps, i))
    ensures forall seconds: nat :: Elapsed(steps, i) <= seconds * SECOND ==>
              Admissions(steps, i, ip) <= Sources(steps, i, ip) * (200 + 100 * seconds)
  {
    hide CanRun, After, Sound, Elapsed, Admissions, Sources;
    CrowdBalance(steps, i, ip);
    SoundRun(steps);
    NotNegative(After(steps), ip, |After(steps).entries|);
    var n, t := Sources(steps, i, ip), Elapsed(steps, i);
    MoreOrEqual(Shares(steps, i, ip), n, BURST + t);
    forall seconds: nat | t <= seconds * SECOND
      ensures Admissions(steps, i, ip) <= n * (200 + 100 * seconds)
    {
      InTokens(Admissions(steps, i, ip), n, t, seconds);
    }
  }
}
