/** Traces of whole AllowIP calls and whole tests of an entry: there the eviction is
    invisible without any further condition. */
module LimiterAtomic {
  import opened LimiterModel
  import opened LimiterTheorems
  import opened LimiterWindow

  /** A call of AllowIP; the start of a cleanup pass, which reads the clock; the test of one
      entry together with its deletion; and the passing of time. */
  datatype Operation = AllowIP(ip: string) | BeginPass | TestAndDelete(ip: string) | Wait(d: nat)

  function StepsOf(s: Limiter, op: Operation): seq<Step> {
    match op
    case AllowIP(ip) => [Arrive(ip), StepCall(|s.calls|), StepCall(|s.calls|), StepCall(|s.calls|)]
    case BeginPass => [StartPass]
    case TestAndDelete(ip) => if Expired(s, ip) then [Judge(ip), Remove(ip)] else [Judge(ip)]
    case Wait(d) => [Tick(d)]
  }

  /** Nobody is in the middle of a call. */
  ghost predicate Smooth(steps: seq<Step>) {
    && CanRun(steps) && Quiet(steps) && Prompt(steps, 0)
    && forall c :: 0 <= c < |After(steps).calls| ==> After(steps).calls[c].pc.Answered?
  }

  lemma SmoothInv(steps: seq<Step>)
    requires Smooth(steps)
    ensures Harmless(steps) && Inv(After(steps))
  {
    QuietIsHarmless(steps, 0);
    InvRun(steps);
  }

  lemma AppendStep(steps: seq<Step>, s: Limiter, step: Step) returns (longer: seq<Step>, s': Limiter)
    requires CanRun(steps) && s == After(steps) && Enabled(s, step)
    requires Quiet(steps) && QuietRemoval(s, step) && Prompt(steps, 0) && PromptTake(s, step, 0)
    ensures CanRun(longer) && s' == After(longer) && s' == Apply(s, step)
    ensures Quiet(longer) && Prompt(longer, 0) && longer == steps + [step]
  {
    longer, s' := Extend(steps, s, step, 0);
  }

  /** A call on its own, up to its Allow. */
  lemma ReachTake(steps: seq<Step>, s: Limiter, ip: string) returns (longer: seq<Step>, s': Limiter, e: nat)
    requires Smooth(steps) && s == After(steps) && (ip in s.table ==> s.table[ip] < |s.entries|)
    ensures CanRun(longer) && s' == After(longer) && Quiet(longer) && Prompt(longer, 0)
    ensures longer == steps + [Arrive(ip), StepCall(|s.calls|), StepCall(|s.calls|)]
    ensures s'.calls == s.calls + [Call(ip, TakeToken(e, s'.now))] && e < |s'.entries|
  {
    hide CanRun, After, Quiet, Prompt;
    var c := |s.calls|;
    longer, s' := AppendStep(steps, s, Arrive(ip));
    longer, s' := AppendStep(longer, s', StepCall(c));
    e := s'.calls[c].pc.entry;
    assert s'.calls == s.calls + [Call(ip, StampSeen(e))];
    longer, s' := AppendStep(longer, s', StepCall(c));
  }

  lemma CallIsSmooth(steps: seq<Step>, s: Limiter, ip: string)
    requires Smooth(steps) && s == After(steps)
    ensures Smooth(steps + StepsOf(s, AllowIP(ip)))
  {
    SmoothInv(steps);
    assert AgreeOn(s, ip);
    hide CanRun, After, Quiet, Prompt, Harmless, Inv;
    var c := |s.calls|;
    var longer, s', _ := ReachTake(steps, s, ip);
    longer, s' := AppendStep(longer, s', StepCall(c));
    assert longer == steps + StepsOf(s, AllowIP(ip));
  }

  lemma TestIsSmooth(steps: seq<Step>, s: Limiter, ip: string)
    requires Smooth(steps) && s == After(steps)
    ensures Smooth(steps + StepsOf(s, TestAndDelete(ip)))
  {
    hide CanRun, After, Quiet, Prompt;
    var longer, s' := AppendStep(steps, s, Judge(ip));
    if Expired(s, ip) {
      longer, s' := AppendStep(longer, s', Remove(ip));
    }
    assert longer == steps + StepsOf(s, TestAndDelete(ip));
  }

  lemma OperationIsSmooth(steps: seq<Step>, op: Operation)
    requires Smooth(steps)
    ensures Smooth(steps + StepsOf(After(steps), op))
  {
    match op
    case AllowIP(ip) => CallIsSmooth(steps, After(steps), ip);
    case TestAndDelete(ip) => TestIsSmooth(steps, After(steps), ip);
    case BeginPass => var _, _ := AppendStep(steps, After(steps), StartPass);
    case Wait(d) => var _, _ := AppendStep(steps, After(steps), Tick(d));
  }

  /** The steps of a trace, one operation after the other. */
  ghost function Trace(ops: seq<Operation>): (steps: seq<Step>)
    ensures Smooth(steps)
  {
    if ops == [] then []
    else
      var front := Trace(ops[..|ops| - 1]);
      OperationIsSmooth(front, ops[|ops| - 1]);
      front + StepsOf(After(front), ops[|ops| - 1])
  }

  /** For every trace of AllowIP calls and cleanup passes, whatever comes between the tests
      of a pass, the answers are those of a limiter that never cleans up, and every window
      of an IP keeps the admission bound. */
  lemma TracesAreInvisible(ops: seq<Operation>, i: nat, ip: string)
    ensures AnswersAgree(After(Trace(ops)))
    ensures i <= |Trace(ops)| ==> Bounded(Trace(ops), i, ip)
  {
    SmoothInv(Trace(ops));
    EvictionIsInvisible(Trace(ops));
    if i <= |Trace(ops)| {
      AdmissionBound(Trace(ops), i, ip);
    }
  }

  /** The same for interleaved calls, if they are prompt and entries are deleted only while
      expired and unused. */
  lemma QuietRunsAreInvisible(steps: seq<Step>, slack: int, i: nat, ip: string)
    requires CanRun(steps) && Quiet(steps) && Prompt(steps, slack) && slack <= MAX_SLACK && i <= |steps|
    ensures AnswersAgree(After(steps)) && Bounded(steps, i, ip)
  {
    QuietIsHarmless(steps, slack);
    EvictionIsInvisible(steps);
    AdmissionBound(steps, i, ip);
  }
}
