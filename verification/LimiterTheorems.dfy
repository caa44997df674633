/** Evicting idle buckets is invisible, and admission is bounded across evictions. */
module LimiterTheorems {
  import opened LimiterModel

  /** The longest delay between lastSeen and Allow for which ten idle minutes are enough: a
      bucket fills in two seconds, and the test is strict. */
  const MAX_SLACK: int := IDLE_LIMIT - BURST + 1

  /** Two buckets that will answer alike from now on. */
  predicate Alike(a: Bucket, b: Bucket, now: int) {
    a == b || (IsFull(a, now) && IsFull(b, now))
  }

  predicate GoodBucket(b: Bucket, now: int) {
    0 <= b.tokens <= BURST && b.last <= now
  }

  ghost predicate EntryInv(s: Limiter, e: Entry) {
    GoodBucket(e.bucket, s.now) && e.lastSeen <= s.now
  }

  /** The table and the never-cleaned buckets agree about an IP. */
  ghost predicate AgreeOn(s: Limiter, ip: string) {
    if ip in s.table then
      && s.table[ip] < |s.entries| && s.entries[s.table[ip]].ip == ip
      && (if ip in s.plain then Alike(s.entries[s.table[ip]].bucket, s.plain[ip], s.now)
          else IsFull(s.entries[s.table[ip]].bucket, s.now))
    else ip in s.plain ==> IsFull(s.plain[ip], s.now)
  }

  ghost predicate CallInv(s: Limiter, call: Call) {
    match call.pc
    case LoadOrStore => true
    case StampSeen(e) => call.ip in s.table && s.table[call.ip] == e
    case TakeToken(e, stamp) =>
      call.ip in s.table && s.table[call.ip] == e && e < |s.entries| && stamp <= s.entries[e].lastSeen
    case Answered(allowed, plain) => allowed == plain
  }

  ghost predicate Inv(s: Limiter) {
    && s.passTime <= s.now
    && (forall e :: 0 <= e < |s.entries| ==> EntryInv(s, s.entries[e]))
    && (forall ip :: ip in s.plain ==> GoodBucket(s.plain[ip], s.now))
    && (forall ip :: AgreeOn(s, ip))
    && (forall c :: 0 <= c < |s.calls| ==> CallInv(s, s.calls[c]))
  }

  lemma LoadKeeps(s: Limiter, c: nat)
    requires Inv(s) && Enabled(s, StepCall(c)) && s.calls[c].pc.LoadOrStore?
    ensures Inv(CallNext(s, c))
  {
    var s' := CallNext(s, c);
    assert AgreeOn(s, s.calls[c].ip);
    forall ip ensures AgreeOn(s', ip) {
      assert AgreeOn(s, ip);
    }
    forall d | 0 <= d < |s'.calls| ensures CallInv(s', s'.calls[d]) {
      assert CallInv(s, s.calls[d]);
      assert AgreeOn(s, s.calls[d].ip);
    }
  }

  lemma StampKeeps(s: Limiter, c: nat)
    requires Inv(s) && Enabled(s, StepCall(c)) && s.calls[c].pc.StampSeen?
    ensures Inv(CallNext(s, c))
  {
    var s' := CallNext(s, c);
    assert CallInv(s, s.calls[c]);
    forall e | 0 <= e < |s'.entries| ensures EntryInv(s', s'.entries[e]) {
      assert EntryInv(s, s.entries[e]);
    }
    forall ip ensures AgreeOn(s', ip) {
      assert AgreeOn(s, ip);
    }
    forall d | 0 <= d < |s'.calls| ensures CallInv(s', s'.calls[d]) {
      assert CallInv(s, s.calls[d]);
      assert s.calls[d].pc.TakeToken? ==> EntryInv(s, s.entries[s.calls[d].pc.entry]);
    }
  }

  /** The bucket in the table and the never-cleaned one answer alike and stay alike. */
  lemma TakeAgrees(s: Limiter, c: nat)
    requires Inv(s) && Enabled(s, StepCall(c)) && s.calls[c].pc.TakeToken?
    ensures var b := s.entries[s.calls[c].pc.entry].bucket;
            var p := PlainBucket(s, s.calls[c].ip);
            HasToken(b, s.now) == HasToken(p, s.now) && AfterAllow(b, s.now) == AfterAllow(p, s.now)
  {
    assert CallInv(s, s.calls[c]);
    assert AgreeOn(s, s.calls[c].ip);
  }

  lemma TakeKeeps(s: Limiter, c: nat)
    requires Inv(s) && Enabled(s, StepCall(c)) && s.calls[c].pc.TakeToken?
    ensures Inv(CallNext(s, c))
  {
    var s' := CallNext(s, c);
    assert CallInv(s, s.calls[c]);
    TakeAgrees(s, c);
    forall e | 0 <= e < |s'.entries| ensures EntryInv(s', s'.entries[e]) {
      assert EntryInv(s, s.entries[e]);
    }
    forall ip ensures AgreeOn(s', ip) {
      assert AgreeOn(s, ip) && AgreeOn(s, s.calls[c].ip);
    }
    forall d | 0 <= d < |s'.calls| ensures CallInv(s', s'.calls[d]) {
      assert CallInv(s, s.calls[d]);
    }
  }

  /** The next call finds a full bucket, as it would have done before. */
  lemma RemoveKeeps(s: Limiter, ip: string)
    requires Inv(s) && Enabled(s, Remove(ip)) && HarmlessRemoval(s, Remove(ip))
    ensures Inv(Apply(s, Remove(ip)))
  {
    var s' := Apply(s, Remove(ip));
    assert AgreeOn(s, ip);
    forall i ensures AgreeOn(s', i) {
      assert AgreeOn(s, i);
    }
    forall d | 0 <= d < |s'.calls| ensures CallInv(s', s'.calls[d]) {
      assert CallInv(s, s.calls[d]);
      assert ip in s.table ==> !Holds(s.calls[d].pc, s.table[ip]);
    }
  }

  lemma QuietStepKeeps(s: Limiter, step: Step)
    requires Inv(s) && Enabled(s, step) && !step.StepCall? && !step.Remove?
    ensures Inv(Apply(s, step))
  {
    var s' := Apply(s, step);
    forall e | 0 <= e < |s'.entries| ensures EntryInv(s', s'.entries[e]) {
      assert EntryInv(s, s.entries[e]);
    }
    forall ip ensures AgreeOn(s', ip) {
      assert AgreeOn(s, ip);
    }
    forall d | 0 <= d < |s'.calls| ensures CallInv(s', s'.calls[d]) {
      assert d < |s.calls| ==> CallInv(s, s.calls[d]);
    }
  }

  lemma InvStep(s: Limiter, step: Step)
    requires Inv(s) && Enabled(s, step) && HarmlessRemoval(s, step)
    ensures Inv(Apply(s, step))
  {
    hide Inv, HarmlessRemoval;
    match step
    case StepCall(c) =>
      if s.calls[c].pc.LoadOrStore? {
        LoadKeeps(s, c);
      } else if s.calls[c].pc.StampSeen? {
        StampKeeps(s, c);
      } else {
        TakeKeeps(s, c);
      }
    case Remove(ip) => RemoveKeeps(s, ip);
    case _ => QuietStepKeeps(s, step);
  }

  lemma {:induction false} InvRun(steps: seq<Step>)
    requires CanRun(steps) && Harmless(steps)
    ensures Inv(After(steps))
  {
    hide Enabled;
    if steps != [] {
      InvRun(steps[..|steps| - 1]);
      InvStep(After(steps[..|steps| - 1]), steps[|steps| - 1]);
    }
  }

  lemma {:induction false} InvContinues(steps: seq<Step>, from: nat)
    requires CanRun(steps) && from <= |steps| && CanRun(steps[..from])
    requires Inv(After(steps[..from])) && HarmlessFrom(steps, from)
    ensures Inv(After(steps))
    decreases |steps|
  {
    hide Enabled;
    if |steps| == from {
      assert steps[..from] == steps;
    } else {
      var front := steps[..|steps| - 1];
      assert front[..from] == steps[..from];
      InvContinues(front, from);
      InvStep(After(front), steps[|steps| - 1]);
    }
  }

  /** Every call of this run was answered as a limiter that never cleans up would have. */
  ghost predicate AnswersAgree(s: Limiter) {
    forall c :: 0 <= c < |s.calls| && s.calls[c].pc.Answered? ==> s.calls[c].pc.allowed == s.calls[c].pc.plain
  }

  lemma InvAgrees(s: Limiter)
    requires Inv(s)
    ensures AnswersAgree(s)
  {
    forall c | 0 <= c < |s.calls| && s.calls[c].pc.Answered? ensures s.calls[c].pc.allowed == s.calls[c].pc.plain {
      assert CallInv(s, s.calls[c]);
    }
  }

  /** Eviction is invisible in every run whose removals are harmless. */
  lemma EvictionIsInvisible(steps: seq<Step>)
    requires CanRun(steps) && Harmless(steps)
    ensures AnswersAgree(After(steps))
  {
    InvRun(steps);
    InvAgrees(After(steps));
  }

  // ---------- What ten idle minutes are worth ----------

  /** A bucket is not used long after the lastSeen of its entry. */
  ghost predicate SlackInv(s: Limiter) {
    forall e :: 0 <= e < |s.entries| ==> s.entries[e].bucket.last <= s.entries[e].lastSeen + MAX_SLACK
  }

  lemma SlackStep(s: Limiter, step: Step)
    requires Inv(s) && SlackInv(s) && Enabled(s, step) && PromptTake(s, step, MAX_SLACK)
    ensures SlackInv(Apply(s, step))
  {
    if step.StepCall? {
      assert CallInv(s, s.calls[step.c]);
      if s.calls[step.c].pc.StampSeen? {
        assert EntryInv(s, s.entries[s.calls[step.c].pc.entry]);
      }
    }
  }

  /** An entry that has been idle for ten minutes has a full bucket. */
  lemma IdleIsFull(s: Limiter, ip: string)
    requires Inv(s) && SlackInv(s) && Expired(s, ip)
    ensures IsFull(s.entries[s.table[ip]].bucket, s.now)
  {
    assert EntryInv(s, s.entries[s.table[ip]]);
  }

  /** If the entries removed are still expired and unused, and calls are prompt, then the
      arithmetic of ten minutes makes every removal harmless. */
  lemma {:induction false} QuietIsHarmless(steps: seq<Step>, slack: int)
    requires CanRun(steps) && Quiet(steps) && Prompt(steps, slack) && slack <= MAX_SLACK
    ensures Harmless(steps) && SlackInv(After(steps))
  {
    hide Enabled;
    if steps != [] {
      var front, step := steps[..|steps| - 1], steps[|steps| - 1];
      QuietIsHarmless(front, slack);
      InvRun(front);
      if step.Remove? && Expired(After(front), step.ip) {
        IdleIsFull(After(front), step.ip);
      }
      SlackStep(After(front), step);
    }
  }

  // ---------- Runs that other lemmas put together ----------

  lemma Extend(steps: seq<Step>, s: Limiter, step: Step, slack: int) returns (longer: seq<Step>, s': Limiter)
    requires CanRun(steps) && s == After(steps) && Enabled(s, step)
    ensures CanRun(longer) && s' == After(longer) && s' == Apply(s, step)
    ensures longer == steps + [step] && HarmlessFrom(longer, |longer|)
    ensures Quiet(steps) && QuietRemoval(s, step) ==> Quiet(longer)
    ensures forall from: nat :: HarmlessFrom(steps, from) && HarmlessRemoval(s, step) ==> HarmlessFrom(longer, from)
    ensures Prompt(steps, slack) && PromptTake(s, step, slack) ==> Prompt(longer, slack)
  {
    longer, s' := steps + [step], Apply(s, step);
    assert longer[..|longer| - 1] == steps;
  }

  /** n calls for an IP in the table arrive, find its entry and write lastSeen. */
  lemma {:induction false} StampMany(steps: seq<Step>, s: Limiter, ip: string, n: nat, slack: int)
    returns (longer: seq<Step>, s': Limiter)
    requires CanRun(steps) && s == After(steps)
    requires ip in s.table && s.table[ip] < |s.entries|
    ensures CanRun(longer) && s' == After(longer)
    ensures steps <= longer && (Quiet(steps) ==> Quiet(longer))
    ensures forall from: nat :: HarmlessFrom(steps, from) ==> HarmlessFrom(longer, from)
    ensures Prompt(steps, slack) && 0 <= slack ==> Prompt(longer, slack)
    ensures var e := s.table[ip];
            && s'.now == s.now && s'.table == s.table && s'.plain == s.plain && |s'.entries| == |s.entries|
            && s'.entries == s.entries[e := s.entries[e].(lastSeen := if n == 0 then s.entries[e].lastSeen else s.now)]
            && s'.passTime == s.passTime && s'.doomed == s.doomed
            && s'.calls == s.calls + seq(n, _ => Call(ip, TakeToken(e, s.now)))
  {
    hide CanRun, After, HarmlessFrom, Quiet, Prompt;
    if n == 0 {
      longer, s' := steps, s;
      assert s.calls + seq(0, _ => Call(ip, TakeToken(s.table[ip], s.now))) == s.calls;
    } else {
      longer, s' := StampMany(steps, s, ip, n - 1, slack);
      var c := |s'.calls|;
      var before := s';
      longer, s' := Extend(longer, s', Arrive(ip), slack);
      longer, s' := Extend(longer, s', StepCall(c), slack);
      longer, s' := Extend(longer, s', StepCall(c), slack);
      assert s'.calls == before.calls + [Call(ip, TakeToken(s.table[ip], s.now))];
    }
  }

  /** The calls from number `first` on take their tokens one after the other. */
  lemma {:induction false} TakeMany(steps: seq<Step>, s: Limiter, ip: string, first: nat, n: nat, slack: int)
    returns (longer: seq<Step>, s': Limiter)
    requires CanRun(steps) && s == After(steps)
    requires ip in s.table && s.table[ip] < |s.entries| && first + n <= |s.calls|
    requires forall c :: first <= c < first + n ==>
               s.calls[c].ip == ip && s.calls[c].pc.TakeToken? && s.calls[c].pc.entry == s.table[ip]
               && s.now - s.calls[c].pc.stamp <= slack
    requires n * TOKEN <= Refill(s.entries[s.table[ip]].bucket, s.now)
    requires n * TOKEN <= Refill(PlainBucket(s, ip), s.now)
    ensures CanRun(longer) && s' == After(longer)
    ensures steps <= longer && (Quiet(steps) ==> Quiet(longer))
    ensures forall from: nat :: HarmlessFrom(steps, from) ==> HarmlessFrom(longer, from)
    ensures Prompt(steps, slack) && 0 <= slack ==> Prompt(longer, slack)
    ensures s'.now == s.now && s'.table == s.table && |s'.entries| == |s.entries|
    ensures s'.passTime == s.passTime && s'.doomed == s.doomed && |s'.calls| == |s.calls|
    ensures forall c :: 0 <= c < |s.calls| && !(first <= c < first + n) ==> s'.calls[c] == s.calls[c]
    ensures forall c :: first <= c < first + n ==> s'.calls[c].pc.Answered?
    ensures forall e :: 0 <= e < |s.entries| ==> s'.entries[e].lastSeen == s.entries[e].lastSeen
    ensures forall e :: 0 <= e < |s.entries| && e != s.table[ip] ==> s'.entries[e] == s.entries[e]
    ensures 0 < n ==> ip in s'.plain
    ensures Refill(s'.entries[s.table[ip]].bucket, s.now) == Refill(s.entries[s.table[ip]].bucket, s.now) - n * TOKEN
    ensures Refill(PlainBucket(s', ip), s.now) == Refill(PlainBucket(s, ip), s.now) - n * TOKEN
    ensures 0 < n ==> s'.entries[s.table[ip]].bucket.last == s.now && PlainBucket(s', ip).last == s.now
  {
    hide CanRun, After, HarmlessFrom, Quiet, Prompt;
    if n == 0 {
      longer, s' := steps, s;
    } else {
      longer, s' := TakeMany(steps, s, ip, first, n - 1, slack);
      longer, s' := Extend(longer, s', StepCall(first + n - 1), slack);
    }
  }

  /** A call for an IP that is not in the table makes a full bucket, and n calls in all are
      ready to take a token from it. */
  lemma FirstCalls(steps: seq<Step>, s: Limiter, ip: string, n: nat, slack: int)
    returns (longer: seq<Step>, s': Limiter)
    requires CanRun(steps) && s == After(steps) && ip !in s.table && 0 < n
    ensures CanRun(longer) && s' == After(longer)
    ensures steps <= longer && (Quiet(steps) ==> Quiet(longer))
    ensures forall from: nat :: HarmlessFrom(steps, from) ==> HarmlessFrom(longer, from)
    ensures Prompt(steps, slack) && 0 <= slack ==> Prompt(longer, slack)
    ensures s'.now == s.now && s'.plain == s.plain && s'.table == s.table[ip := |s.entries|]
    ensures s'.entries == s.entries + [Entry(ip, NewBucket(s.now), s.now)]
    ensures s'.calls == s.calls + seq(n, _ => Call(ip, TakeToken(|s.entries|, s.now)))
    ensures s'.passTime == s.passTime && s'.doomed == s.doomed
  {
    hide CanRun, After, HarmlessFrom, Quiet, Prompt;
    var c := |s.calls|;
    var s1;
    longer, s' := Extend(steps, s, Arrive(ip), slack);
    longer, s' := Extend(longer, s', StepCall(c), slack);
    longer, s1 := Extend(longer, s', StepCall(c), slack);
    assert s1.entries == s.entries + [Entry(ip, NewBucket(s.now), s.now)];
    assert s1.calls == s.calls + [Call(ip, TakeToken(|s.entries|, s.now))];
    longer, s' := StampMany(longer, s1, ip, n - 1, slack);
    assert s'.entries == s1.entries;
    assert s'.calls == s.calls + seq(n, _ => Call(ip, TakeToken(|s.entries|, s.now)));
  }

  // ---------- Which removals show ----------

  /** After removing the entry of an IP, with every later removal harmless, some call can be
      answered otherwise than by the limiter that never cleans up. */
  ghost predicate CanShow(steps: seq<Step>, ip: string)
    requires CanRun(steps)
  {
    exists longer: seq<Step> ::
      CanRun(longer) && steps + [Remove(ip)] <= longer && HarmlessFrom(longer, |steps| + 1)
      && !AnswersAgree(After(longer))
  }

  /** A bucket that is not full is thrown away: the calls that it could serve are served by
      the new one, and so is one call more. */
  lemma UnfullRemovalShows(steps: seq<Step>, s: Limiter, ip: string, slack: nat)
    returns (longer: seq<Step>)
    requires CanRun(steps) && s == After(steps) && Inv(s)
    requires Enabled(s, Remove(ip)) && ip in s.table && s.table[ip] < |s.entries|
    requires !IsFull(s.entries[s.table[ip]].bucket, s.now)
    ensures CanRun(longer) && steps + [Remove(ip)] <= longer && HarmlessFrom(longer, |steps| + 1)
    ensures Prompt(steps, slack) ==> Prompt(longer, slack)
    ensures !AnswersAgree(After(longer))
  {
    hide CanRun, After, HarmlessFrom, Quiet, Prompt;
    assert AgreeOn(s, ip);
    var s': Limiter;
    longer, s' := Extend(steps, s, Remove(ip), slack);
    var first := |s'.calls|;
    var left := Refill(PlainBucket(s', ip), s'.now);
    assert EntryInv(s, s.entries[s.table[ip]]) && 0 <= left < BURST;
    var k := left / TOKEN;
    longer, s' := FirstCalls(longer, s', ip, k + 1, slack);
    longer, s' := TakeMany(longer, s', ip, first, k, slack);
    assert s'.calls[first + k].pc == TakeToken(s'.table[ip], s'.now);
    longer, s' := Extend(longer, s', StepCall(first + k), slack);
    assert s'.calls[first + k].pc == Answered(true, false);
  }

  /** An entry is removed while a call holds it: two hundred calls empty the new bucket and
      the never-cleaned one, and then the call draws on the old one. */
  lemma HeldRemovalShows(steps: seq<Step>, s: Limiter, ip: string, c: nat, slack: nat)
    returns (longer: seq<Step>)
    requires CanRun(steps) && s == After(steps) && Inv(s)
    requires Enabled(s, Remove(ip)) && ip in s.table && s.table[ip] < |s.entries|
    requires IsFull(s.entries[s.table[ip]].bucket, s.now)
    requires c < |s.calls| && Holds(s.calls[c].pc, s.table[ip])
    ensures CanRun(longer) && steps + [Remove(ip)] <= longer && HarmlessFrom(longer, |steps| + 1)
    ensures Prompt(steps, slack) && (s.calls[c].pc.TakeToken? ==> s.now - s.calls[c].pc.stamp <= slack)
            ==> Prompt(longer, slack)
    ensures !AnswersAgree(After(longer))
  {
    hide CanRun, After, HarmlessFrom, Quiet, Prompt;
    assert AgreeOn(s, ip) && CallInv(s, s.calls[c]) && AgreeOn(s, s.calls[c].ip);
    var kept := s.entries[s.table[ip]];
    var s': Limiter;
    longer, s' := Extend(steps, s, Remove(ip), slack);
    assert IsFull(PlainBucket(s', ip), s'.now);
    longer, s' := FirstCalls(longer, s', ip, 200, slack);
    longer, s' := TakeMany(longer, s', ip, |s.calls|, 200, slack);
    assert s'.entries[s.table[ip]] == kept && s'.calls[c] == s.calls[c];
    if s'.calls[c].pc.StampSeen? {
      longer, s' := Extend(longer, s', StepCall(c), slack);
    }
    longer, s' := Extend(longer, s', StepCall(c), slack);
    assert s'.calls[c].pc == Answered(true, false);
  }

  /** Exactly when a removal can be told from keeping the bucket: when the bucket is not full
      or a call holds it. */
  lemma RemovalShowsExactly(steps: seq<Step>, ip: string)
    requires CanRun(steps) && Harmless(steps)
    requires Enabled(After(steps), Remove(ip)) && ip in After(steps).table
    ensures After(steps).table[ip] < |After(steps).entries|
    ensures var s := After(steps);
            CanShow(steps, ip)
            <==> !IsFull(s.entries[s.table[ip]].bucket, s.now) || Held(s, s.table[ip])
  {
    hide CanRun, After, HarmlessFrom, Quiet, Prompt;
    var s := After(steps);
    InvRun(steps);
    assert AgreeOn(s, ip);
    if !IsFull(s.entries[s.table[ip]].bucket, s.now) {
      var _ := UnfullRemovalShows(steps, s, ip, 0);
    } else if Held(s, s.table[ip]) {
      var c :| 0 <= c < |s.calls| && Holds(s.calls[c].pc, s.table[ip]);
      var _ := HeldRemovalShows(steps, s, ip, c, 0);
    } else {
      HarmlessNeverShows(steps, s, ip);
    }
  }

  lemma HarmlessNeverShows(steps: seq<Step>, s: Limiter, ip: string)
    requires CanRun(steps) && s == After(steps) && Inv(s)
    requires Enabled(s, Remove(ip)) && HarmlessRemoval(s, Remove(ip))
    ensures !CanShow(steps, ip)
  {
    hide Inv, AnswersAgree, HarmlessFrom, HarmlessRemoval, Quiet, Prompt, Enabled;
    var next, s' := Extend(steps, s, Remove(ip), 0);
    InvStep(s, Remove(ip));
    forall longer: seq<Step> | CanRun(longer) && next <= longer && HarmlessFrom(longer, |next|)
      ensures AnswersAgree(After(longer))
    {
      assert longer[..|next|] == next;
      InvContinues(longer, |next|);
      InvAgrees(After(longer));
    }
  }

  // ---------- How the code comes to such a removal ----------

  /** A cleanup pass over one IP. */
  lemma CleanUp(steps: seq<Step>, s: Limiter, ip: string, slack: int) returns (longer: seq<Step>, s': Limiter)
    requires CanRun(steps) && s == After(steps)
    requires ip in s.table && s.table[ip] < |s.entries|
    requires s.now - s.entries[s.table[ip]].lastSeen > IDLE_LIMIT
    ensures CanRun(longer) && s' == After(longer)
    ensures Quiet(steps) && !Held(s, s.table[ip]) ==> Quiet(longer)
    ensures Prompt(steps, slack) ==> Prompt(longer, slack)
    ensures s'.table == s.table - {ip} && s'.now == s.now && s'.entries == s.entries
    ensures s'.plain == s.plain && s'.calls == s.calls
  {
    longer, s' := FindExpired(steps, s, ip, slack);
    longer, s' := Extend(longer, s', Remove(ip), slack);
  }

  /** The first half of a pass: the entry is found expired. */
  lemma FindExpired(steps: seq<Step>, s: Limiter, ip: string, slack: int) returns (longer: seq<Step>, s': Limiter)
    requires CanRun(steps) && s == After(steps)
    requires ip in s.table && s.table[ip] < |s.entries|
    requires s.now - s.entries[s.table[ip]].lastSeen > IDLE_LIMIT
    ensures CanRun(longer) && s' == After(longer)
    ensures steps <= longer && (Quiet(steps) ==> Quiet(longer)) && (Harmless(steps) ==> Harmless(longer))
    ensures Prompt(steps, slack) ==> Prompt(longer, slack)
    ensures s' == s.(passTime := s.now, doomed := {ip})
  {
    longer, s' := Extend(steps, s, StartPass, slack);
    longer, s' := Extend(longer, s', Judge(ip), slack);
  }

  const HOST: string := "10.0.0.1"

  /** Two hundred calls write lastSeen at time 0 and take their tokens at time d. */
  lemma LateBurst(d: nat) returns (steps: seq<Step>, s: Limiter)
    ensures CanRun(steps) && s == After(steps) && Quiet(steps) && Prompt(steps, d)
    ensures s.now == d && s.table == map[HOST := 0] && |s.entries| == 1 && s.entries[0].lastSeen == 0
    ensures HOST in s.plain && s.plain[HOST] == Bucket(0, d)
    ensures |s.calls| == 200 && forall c :: 0 <= c < 200 ==> s.calls[c].pc.Answered?
  {
    steps, s := [], Init();
    steps, s := FirstCalls(steps, s, HOST, 200, d);
    steps, s := Extend(steps, s, Tick(d), d);
    steps, s := TakeMany(steps, s, HOST, 0, 200, d);
    assert Refill(s.plain[HOST], d) == 0;
  }

  /** With a longer delay ten idle minutes are not enough: the bucket that is thrown away
      is short of one unit, and the new one admits a call that the old one would refuse. */
  lemma LateTakesShow(d: nat) returns (steps: seq<Step>)
    requires d == MAX_SLACK + 1
    ensures CanRun(steps) && Quiet(steps) && Prompt(steps, d) && !AnswersAgree(After(steps))
  {
    hide CanRun, After, HarmlessFrom, Quiet, Prompt;
    var s: Limiter;
    steps, s := LateBurst(d);
    steps, s := Extend(steps, s, Tick(BURST - 1), d);
    assert s.now == IDLE_LIMIT + 1;
    steps, s := CleanUp(steps, s, HOST, d);
    steps, s := FirstCalls(steps, s, HOST, 200, d);
    assert Refill(PlainBucket(s, HOST), s.now) == BURST - 1;
    steps, s := TakeMany(steps, s, HOST, 200, 199, d);
    steps, s := Extend(steps, s, StepCall(399), d);
    assert s.calls[399].pc == Answered(true, false);
  }

  /** One call long ago: the entry is idle, its bucket full, and a pass finds it expired. */
  lemma IdleHost() returns (steps: seq<Step>, s: Limiter)
    ensures CanRun(steps) && s == After(steps) && Harmless(steps) && Quiet(steps) && Prompt(steps, 0)
    ensures s.table == map[HOST := 0] && |s.entries| == 1 && HOST in s.doomed && Expired(s, HOST)
    ensures |s.calls| == 1 && s.calls[0].pc.Answered?
    ensures IsFull(s.entries[0].bucket, s.now) && IsFull(PlainBucket(s, HOST), s.now)
  {
    steps, s := [], Init();
    steps, s := FirstCalls(steps, s, HOST, 1, 0);
    steps, s := TakeMany(steps, s, HOST, 0, 1, 0);
    steps, s := Extend(steps, s, Tick(IDLE_LIMIT + 1), 0);
    steps, s := FindExpired(steps, s, HOST, 0);
  }

  /** A removal while a call holds the entry shows: the call came between the test of
      lastSeen and the deletion, or had not written lastSeen when the test was made. */
  lemma RemovalUnderCallShows() returns (steps: seq<Step>, longer: seq<Step>)
    ensures CanRun(steps) && Harmless(steps) && Enabled(After(steps), Remove(HOST))
    ensures HOST in After(steps).table && Expired(After(steps), HOST)
    ensures Held(After(steps), After(steps).table[HOST])
    ensures CanRun(longer) && steps + [Remove(HOST)] <= longer && Prompt(longer, 0) && !AnswersAgree(After(longer))
  {
    hide CanRun, After, HarmlessFrom, Quiet, Prompt;
    var s: Limiter;
    steps, s := IdleHost();
    steps, s := Extend(steps, s, Arrive(HOST), 0);
    steps, s := Extend(steps, s, StepCall(1), 0);
    assert s.calls[1] == Call(HOST, StampSeen(0));
    InvRun(steps);
    longer := HeldRemovalShows(steps, s, HOST, 1, 0);
  }

  /** So does a removal that comes late: a pass finds the entry expired, two hundred calls
      come and go, and then the pass removes the entry they have just used up. */
  lemma RemovalAfterUseShows() returns (steps: seq<Step>, longer: seq<Step>)
    ensures CanRun(steps) && Harmless(steps) && Enabled(After(steps), Remove(HOST))
    ensures HOST in After(steps).table && !Held(After(steps), After(steps).table[HOST])
    ensures forall c :: 0 <= c < |After(steps).calls| ==> After(steps).calls[c].pc.Answered?
    ensures CanRun(longer) && steps + [Remove(HOST)] <= longer && Prompt(longer, 0) && !AnswersAgree(After(longer))
  {
    hide CanRun, After, HarmlessFrom, Quiet, Prompt;
    var s: Limiter;
    steps, s := IdleHost();
    steps, s := StampMany(steps, s, HOST, 200, 0);
    steps, s := TakeMany(steps, s, HOST, 1, 200, 0);
    InvRun(steps);
    longer := UnfullRemovalShows(steps, s, HOST, 0);
  }

  /** Exactly how late an Allow may come after its lastSeen for eviction to stay invisible
      in every run with quiet removals: 598 seconds and a nanosecond. */
  lemma SlackIsExact(slack: int)
    ensures (forall steps: seq<Step> ::
               CanRun(steps) && Quiet(steps) && Prompt(steps, slack) ==> AnswersAgree(After(steps)))
            <==> slack <= MAX_SLACK
  {
    if slack <= MAX_SLACK {
      forall steps: seq<Step> | CanRun(steps) && Quiet(steps) && Prompt(steps, slack)
        ensures AnswersAgree(After(steps))
      {
        QuietIsHarmless(steps, slack);
        EvictionIsInvisible(steps);
      }
    } else {
      var steps := LateTakesShow(MAX_SLACK + 1);
      PromptGrows(steps, MAX_SLACK + 1, slack);
    }
  }

  lemma {:induction false} PromptGrows(steps: seq<Step>, slack: int, more: int)
    requires CanRun(steps) && Prompt(steps, slack) && slack <= more
    ensures Prompt(steps, more)
  {
    if steps != [] {
      PromptGrows(steps[..|steps| - 1], slack, more);
    }
  }
}
