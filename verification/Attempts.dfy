/**
 What an attempt to find and execute a transition does: which transition's effects it has, how often it
 answers the caller, what it keeps of the store, and when it fails its closing assertion.
 */
module Attempts {
  import opened Results
  import opened Language
  import opened Evaluator
  import opened EffectFree
  import opened Statements
  import opened Transitions
  import opened Scanning

  // ----- effects ----------------------------------------------------------------------------------

  /**
   The attempt ran the statements of this transition and nothing else, with fuzzing as it was told, and went where
   the transition leads unless it throws.
   */
  ghost predicate RanOnly(a: Attempt, k: nat, st: Fuzz, r: Attempted)
    requires k < |a.bucket|
  {
    && r.outputted
    && r.outcome.state == (if a.bucket[k].transition.ContainsThrow() then a.state else a.bucket[k].to)
    && exists st' :: SameWeights(st, st') && Ran(a, k, st', r.outcome)
  }

  ghost predicate Ran(a: Attempt, k: nat, st': Fuzz, o: Outcome)
    requires k < |a.bucket|
  {
    && st'.enabled == a.enable
    && ExecAll(a.bucket[k].transition.statements, a.env, st') == Ok(Effect(o.env, o.st, o.out))
  }

  /** The attempt ran nothing, but may have reported a failed precondition. */
  ghost predicate RanNothing(a: Attempt, st: Fuzz, r: Attempted) {
    && r.outcome.state == a.state && r.outcome.env == a.env && SameWeights(st, r.outcome.st)
    && (!r.outputted ==> r.outcome.out == [])
    && (r.outputted ==> exists k | 0 <= k < |a.bucket| :: Reported(a, k, st, r.outcome.out))
  }

  /** The output is that of checking the preconditions of a transition that was refused once before. */
  ghost predicate Reported(a: Attempt, k: nat, st: Fuzz, out: seq<Output>)
    requires k < |a.bucket|
  {
    && MayBe(a, k, st, Refused(true))
    && exists st' :: Rechecked(a.bucket[k], a.env, st, st', out)
  }

  ghost predicate Rechecked(arc: Arc, env: Env, st: Fuzz, st': Fuzz, out: seq<Output>) {
    && SameWeights(st, st') && CheckPreconditions(arc.transition.preconditions, env, st').Ok?
    && out == Errors(CheckPreconditions(arc.transition.preconditions, env, st').value.verdict)
  }

  /**
   An attempt that executes a transition runs its statements once, and ends where the transition leads, or where
   it was if the transition throws. One that executes none changes neither state nor variables.
   */
  lemma AttemptEffect(a: Attempt, st: Fuzz)
    requires a.bucket != [] && FindAndExecute(a, st).Ok?
    ensures var e, r := Executed(a, st), FindAndExecute(a, st).value;
      && (e.Some? ==> e.value < |a.bucket| && RanOnly(a, e.value, st, r))
      && (e.None? ==> RanNothing(a, st, r))
  {
    hide Visit, Settle, SettleBy, Conclude, RanNothing, RanOnly, StopsAtRunnable, MayBe;
    var offset := st.Range(0, |a.bucket|);
    var v := Visit(a, offset, 0, st.Advance()).value;
    VisitMeans(a, offset, 0, st.Advance());
    SettleByMeans(a.rule, v.classes);
    var f := SettleBy(a.rule, v.classes);
    if f.failure.Some? {
      assert MayBe(a, At(|a.bucket|, offset, 0 + f.failure.value), st.Advance(), Refused(true));
    }
    ConcludeEffect(a, offset, f, st, v.st);
  }

  /** A check of the preconditions finds them satisfied. */
  predicate Passes(ps: seq<Precondition>, env: Env, st: Fuzz) {
    var r := CheckPreconditions(ps, env, st);
    r.Ok? && r.value.verdict.Satisfied?
  }

  /**
   Whatever is fuzzed, what an attempt executes leads out of the current state, is permitted, and had its preconditions
   found satisfied.
   */
  lemma ExecutedFromHere(a: Attempt, st: Fuzz)
    requires a.bucket != [] && Executed(a, st).Some?
    ensures var k := Executed(a, st).value;
      && k < |a.bucket| && a.bucket[k].from == a.state && a.permits(k)
      && exists st' :: OnlyDraws(st, st') && Passes(a.bucket[k].transition.preconditions, a.env, st')
  {
    hide Visit, Settle, SettleBy, CheckPreconditions, StopsAtRunnable, Classify, OnlyDraws;
    var offset := st.Range(0, |a.bucket|);
    var cs := Visit(a, offset, 0, st.Advance()).value.classes;
    var f := SettleBy(a.rule, cs);
    VisitMeans(a, offset, 0, st.Advance());
    SettleMeans(cs);
    SettleByMeans(a.rule, cs);
    var i := if f.chosen.Some? then f.chosen.value else f.candidate.value;
    NotSkipped(cs, i);
    var k := At(|a.bucket|, offset, 0 + i);
    assert MayBe(a, k, st.Advance(), cs[i]);
    MayBeAdvances(a, k, st, cs[i]);
    PassedInScan(a, k, st, cs[i]);
  }

  lemma NotSkipped(cs: seq<Class>, i: nat)
    requires StopsAtRunnable(cs) && (LastDeferred(cs, i) || (!NoneRuns(cs) && i == |cs| - 1))
    ensures i < |cs| && (cs[i].Deferred? || cs[i].Runnable?)
  {
  }

  lemma PassedInScan(a: Attempt, k: nat, st: Fuzz, c: Class)
    requires k < |a.bucket| && MayBe(a, k, st, c) && (c.Deferred? || c.Runnable?)
    ensures a.bucket[k].from == a.state && a.permits(k)
    ensures exists st' :: OnlyDraws(st, st') && Passes(a.bucket[k].transition.preconditions, a.env, st')
  {
    hide CheckPreconditions, OnlyDraws;
    var st' :| OnlyDraws(st, st') && Classify(a, k, st').Ok? && Classify(a, k, st').value.kind == c;
    assert Passes(a.bucket[k].transition.preconditions, a.env, st');
  }

  lemma ConcludeEffect(a: Attempt, offset: nat, f: Fallbacks, st: Fuzz, st': Fuzz)
    requires a.bucket != [] && Conclude(a, offset, f, st').Ok? && OnlyDraws(st.Advance(), st')
    requires f.chosen.Some? ==> f == Fallbacks(f.chosen, None, None)
    requires f.failure.Some? ==> MayBe(a, At(|a.bucket|, offset, f.failure.value), st.Advance(), Refused(true))
    ensures var e, r := Picked(|a.bucket|, offset, f), Conclude(a, offset, f, st').value;
      && (e.Some? ==> RanOnly(a, e.value, st, r))
      && (e.None? ==> RanNothing(a, st, r))
  {
    hide CheckPreconditions, MayBe, At, ExecAll;
    var r := Conclude(a, offset, f, st').value;
    assert SameWeights(st, st') by { DrawsKeepWeights(st.Advance(), st'); }
    var start := Outcome(a.state, a.env, st', []);
    if f.failure.Some? {
      var k := At(|a.bucket|, offset, f.failure.value);
      MayBeAdvances(a, k, st, Refused(true));
      var ps := a.bucket[k].transition.preconditions;
      var checked := CheckPreconditions(ps, a.env, st').value;
      CheckingOnlyDraws(ps, a.env, st');
      DrawsKeepWeights(st', checked.st);
      assert [] + Errors(checked.verdict) == Errors(checked.verdict);
      assert Rechecked(a.bucket[k], a.env, st, st', r.outcome.out);
      assert Reported(a, k, st, r.outcome.out);
    } else if Picked(|a.bucket|, offset, f).Some? {
      var k := Picked(|a.bucket|, offset, f).value;
      var on := st'.(enabled := a.enable);
      EnabledWeights(st, st', a.enable);
      var e := ExecAll(a.bucket[k].transition.statements, a.env, on).value;
      assert [] + e.out == e.out && Ran(a, k, on, r.outcome);
    }
  }

  lemma EnabledWeights(st: Fuzz, st': Fuzz, enable: bool)
    requires SameWeights(st, st')
    ensures SameWeights(st, st'.(enabled := enable))
  {
    forall id: nat ensures st'.(enabled := enable).Weight(id) == st.Weight(id) {
      assert st'.Weight(id) == st.Weight(id);
    }
  }

  lemma MayBeAdvances(a: Attempt, k: nat, st: Fuzz, c: Class)
    requires k < |a.bucket| && MayBe(a, k, st.Advance(), c)
    ensures MayBe(a, k, st, c)
  {
    hide Classify;
    var st' :| OnlyDraws(st.Advance(), st') && Classify(a, k, st').Ok? && Classify(a, k, st').value.kind == c;
    assert OnlyDraws(st, st.Advance());
    Chain(st, st.Advance(), st');
  }

  // ----- answers ----------------------------------------------------------------------------------

  predicate MethodBucket(bucket: seq<Arc>) {
    forall k | 0 <= k < |bucket| :: bucket[k].transition.trigger.MethodCall? && WellShaped(bucket[k].transition)
  }

  predicate SilentBucket(bucket: seq<Arc>) {
    forall k | 0 <= k < |bucket| :: !bucket[k].transition.trigger.MethodCall? && WellShaped(bucket[k].transition)
  }

  lemma RanAnswers(a: Attempt, k: nat, st: Fuzz, r: Attempted)
    requires k < |a.bucket| && RanOnly(a, k, st, r)
    ensures r.outputted && AnswerCount(r.outcome.out) == ResponseCount(a.bucket[k].transition.statements)
  {
    hide ExecAll;
    var st' :| SameWeights(st, st') && Ran(a, k, st', r.outcome);
    StatementsAnswer(a.bucket[k].transition.statements, a.env, st');
  }

  /** Without fuzzing the verdict on preconditions does not depend on the draws. */
  lemma {:induction false} VerdictStable(ps: seq<Precondition>, env: Env, st: Fuzz, st': Fuzz, st'': Fuzz)
    requires UnfuzzedPreconditions(ps, st) && SameWeights(st, st') && SameWeights(st, st'')
    requires CheckPreconditions(ps, env, st').Ok?
    ensures CheckPreconditions(ps, env, st'').Ok?
    ensures CheckPreconditions(ps, env, st'').value.verdict == CheckPreconditions(ps, env, st').value.verdict
  {
    hide Eval;
    if ps != [] {
      UnfuzzedIsCalm(ps[0].condition, st, st');
      UnfuzzedIsCalm(ps[0].condition, st, st'');
      CalmEval(ps[0].condition, env, st');
      CalmEval(ps[0].condition, env, st'');
      if Plain(ps[0].condition, env).value.b { VerdictStable(ps[1..], env, st, st', st''); }
    }
  }

  /** The verdict of a check that reports no error after all. */
  predicate Reprieved(r: Result<Checked>) {
    r.Ok? && !(r.value.verdict.Unsatisfied? && r.value.verdict.error.Some?)
  }

  /**
   The scan remembers a refusal and nothing better, and when the preconditions of the refused transition are
   checked again, to report the error, they do not fail with one. Something was output, so far as the caller
   of the attempt is told, but nothing was.
   */
  predicate Withdrawn(a: Attempt, st: Fuzz) {
    a.bucket != [] &&
      var offset := st.Range(0, |a.bucket|);
      var v := Visit(a, offset, 0, st.Advance());
      v.Ok? &&
        var f := SettleBy(a.rule, v.value.classes);
        && f.failure.Some? && f.candidate.None?
        && Reprieved(CheckPreconditions(
             a.bucket[At(|a.bucket|, offset, f.failure.value)].transition.preconditions, a.env, v.value.st))
  }

  /** An attempt that executes nothing outputs the one error it reports, or nothing where that is withdrawn. */
  lemma NothingExecuted(a: Attempt, st: Fuzz)
    requires a.bucket != [] && FindAndExecute(a, st).Ok? && Executed(a, st).None?
    ensures var r := FindAndExecute(a, st).value;
      && (!r.outputted || Withdrawn(a, st) ==> r.outcome.out == [])
      && (r.outputted && !Withdrawn(a, st) ==> |r.outcome.out| == 1 && r.outcome.out[0].ThrowOut?)
  {
    hide Visit, Settle, SettleIntended, SettleBy, CheckPreconditions, At;
    assert [] + Errors(Satisfied) == [];
  }

  /** A withdrawn refusal leaves the attempt without an assertion failing, and with nothing executed. */
  lemma WithdrawnIsQuiet(a: Attempt, st: Fuzz)
    requires Withdrawn(a, st)
    ensures FindAndExecute(a, st).Ok? && FindAndExecute(a, st).value.outputted && Executed(a, st).None?
  {
    hide Visit, SettleBy, CheckPreconditions, At, StopsAtRunnable;
    VisitMeans(a, st.Range(0, |a.bucket|), 0, st.Advance());
    SettleByMeans(a.rule, Visit(a, st.Range(0, |a.bucket|), 0, st.Advance()).value.classes);
  }

  /** Where no precondition is fuzzed the second check finds what the first one did. */
  lemma UnfuzzedIsNotWithdrawn(a: Attempt, st: Fuzz)
    requires UnfuzzedBucket(a.bucket, st)
    ensures !Withdrawn(a, st)
  {
    hide Visit, SettleBy, CheckPreconditions, At, StopsAtRunnable, UnfuzzedPreconditions, SameWeights;
    if Withdrawn(a, st) {
      var n, offset := |a.bucket|, st.Range(0, |a.bucket|);
      var v := Visit(a, offset, 0, st.Advance()).value;
      VisitMeans(a, offset, 0, st.Advance());
      SettleByMeans(a.rule, v.classes);
      var j := SettleBy(a.rule, v.classes).failure.value;
      var k := At(n, offset, j);
      assert MayBe(a, At(n, offset, 0 + j), st.Advance(), Refused(true));
      RefusalStands(a, k, st, v.st);
    }
  }

  lemma RefusalStands(a: Attempt, k: nat, st: Fuzz, st': Fuzz)
    requires k < |a.bucket| && UnfuzzedPreconditions(a.bucket[k].transition.preconditions, st)
    requires MayBe(a, k, st.Advance(), Refused(true)) && OnlyDraws(st.Advance(), st')
    ensures !Reprieved(CheckPreconditions(a.bucket[k].transition.preconditions, a.env, st'))
  {
    hide CheckPreconditions, UnfuzzedPreconditions;
    var first :| OnlyDraws(st.Advance(), first)
      && Classify(a, k, first).Ok? && Classify(a, k, first).value.kind == Refused(true);
    DrawsKeepWeights(st.Advance(), first);
    DrawsKeepWeights(st.Advance(), st');
    AdvanceKeepsWeights(st, first);
    AdvanceKeepsWeights(st, st');
    VerdictStable(a.bucket[k].transition.preconditions, a.env, st, first, st');
  }

  lemma OneErrorIsOneAnswer(out: seq<Output>)
    requires |out| == 1 && out[0].ThrowOut?
    ensures AnswerCount(out) == 1
  {
    assert out[..0] == [];
  }

  /** An attempt at a method call that succeeds answers exactly once, unless it withdraws its refusal. */
  lemma AnsweredUnlessWithdrawn(a: Attempt, st: Fuzz)
    requires MethodBucket(a.bucket) && FindAndExecute(a, st).Ok?
    ensures var r := FindAndExecute(a, st).value;
      AnswerCount(r.outcome.out) == if r.outputted && !Withdrawn(a, st) then 1 else 0
  {
    hide FindAndExecute, Executed, RanOnly, Reported, Withdrawn;
    if a.bucket == [] {
      assert AnswerCount([]) == 0;
      EmptyAttempt(a, st);
    } else {
      var r, e := FindAndExecute(a, st).value, Executed(a, st);
      if Withdrawn(a, st) { WithdrawnIsQuiet(a, st); }
      if e.Some? {
        AttemptEffect(a, st);
        RanAnswers(a, e.value, st, r);
      } else {
        NothingExecuted(a, st);
        if r.outputted && !Withdrawn(a, st) { OneErrorIsOneAnswer(r.outcome.out); }
      }
    }
  }

  lemma EmptyAttempt(a: Attempt, st: Fuzz)
    requires a.bucket == []
    ensures FindAndExecute(a, st) == Ok(Attempted(false, Outcome(a.state, a.env, st, [])))
  {
  }

  /** Transitions that nobody called for never answer, and a failed precondition of theirs is not reported. */
  lemma NeverAnswered(a: Attempt, st: Fuzz)
    requires SilentBucket(a.bucket) && FindAndExecute(a, st).Ok?
    ensures var r := FindAndExecute(a, st).value;
      AnswerCount(r.outcome.out) == 0 && (r.outputted ==> Executed(a, st).Some?)
  {
    hide FindAndExecute, Executed, RanOnly;
    if a.bucket == [] {
      EmptyAttempt(a, st);
    } else {
      AttemptEffect(a, st);
      var r, e := FindAndExecute(a, st).value, Executed(a, st);
      if e.Some? {
        RanAnswers(a, e.value, st, r);
      } else if r.outputted {
        var k :| 0 <= k < |a.bucket| && Reported(a, k, st, r.outcome.out);
        SilentNeverRefuses(a, k, st);
      }
    }
  }

  lemma SilentNeverRefuses(a: Attempt, k: nat, st: Fuzz)
    requires SilentBucket(a.bucket) && k < |a.bucket|
    ensures !MayBe(a, k, st, Refused(true))
  {
    hide Classify;
    forall st' | OnlyDraws(st, st') && Classify(a, k, st').Ok? ensures Classify(a, k, st').value.kind != Refused(true) {
      ClassifyOnlyDraws(a, k, st');
    }
  }

  // ----- the store --------------------------------------------------------------------------------

  predicate ReadyTransition(t: Transition, cx: Context) {
    AcceptedTransition(t, cx) && GuardedTransition(t, cx)
  }

  predicate ReadyBucket(bucket: seq<Arc>, cx: Context) {
    forall k | 0 <= k < |bucket| :: ReadyTransition(bucket[k].transition, cx)
  }

  predicate TameBucket(bucket: seq<Arc>, cx: Context, fs: set<Fault>) {
    forall k | 0 <= k < |bucket| :: TameTransition(bucket[k].transition, cx, fs)
  }

  /** The store still conforms, weights are as before, and outputs are of their declared types. */
  ghost predicate SoundOutcome(cx: Context, env: Env, st: Fuzz, o: Outcome) {
    && Conforms(o.env) && SameTypes(env, o.env) && SameWeights(st, o.st)
    && forall i | 0 <= i < |o.out| :: TypedOutput(o.out[i], cx)
  }

  ghost predicate SoundStep(r: Result<Outcome>, cx: Context, env: Env, st: Fuzz, fs: set<Fault>) {
    match r
    case Ok(o) => SoundOutcome(cx, env, st, o)
    case Fail(f) => Untypable(f) && f in fs
  }

  lemma ExecuteSound(arc: Arc, enable: bool, cx: Context, o: Outcome, fs: set<Fault>)
    requires ReadyTransition(arc.transition, cx) && TameTransition(arc.transition, cx, fs) && cx.Usable()
    requires Conforms(o.env) && SameTypes(cx.env, o.env)
    requires forall i | 0 <= i < |o.out| :: TypedOutput(o.out[i], cx)
    ensures SoundStep(ExecuteTransition(arc, enable, o), cx, o.env, o.st, fs)
  {
    hide AcceptedStatement, GuardedStatement, TypedOutput, ExecAll, Conforms, TameStatement;
    hide SameTypes, Check, Parsed, Guarded;
    var ss := arc.transition.statements;
    var st := o.st.(enabled := enable);
    StatementsSound(ss, cx, o.env, st, fs);
    var r := ExecAll(ss, o.env, st);
    if r.Ok? {
      DrawsKeepWeights(st, r.value.st);
      EnabledKeepsWeights(o.st, enable, r.value.st);
    }
  }

  lemma EnabledKeepsWeights(st: Fuzz, enable: bool, st': Fuzz)
    requires SameWeights(st.(enabled := enable), st')
    ensures SameWeights(st, st')
  {
    forall id: nat ensures st'.Weight(id) == st.Weight(id) {
      assert st'.Weight(id) == st.(enabled := enable).Weight(id);
    }
  }

  lemma SameWeightsTransitive(a: Fuzz, b: Fuzz, c: Fuzz)
    requires SameWeights(a, b) && SameWeights(b, c)
    ensures SameWeights(a, c)
  {
    forall id: nat ensures c.Weight(id) == a.Weight(id) { assert c.Weight(id) == b.Weight(id); }
  }

  lemma ClassifySound(a: Attempt, k: nat, cx: Context, st: Fuzz, fs: set<Fault>)
    requires k < |a.bucket| && ReadyTransition(a.bucket[k].transition, cx)
    requires TameTransition(a.bucket[k].transition, cx, fs)
    requires Conforms(a.env) && SameTypes(cx.env, a.env)
    ensures Classify(a, k, st).Fail? ==>
      Untypable(Classify(a, k, st).fault) && Classify(a, k, st).fault in fs
  {
    hide AcceptedStatement, GuardedStatement, Conforms, TameStatement, SameTypes;
    hide Check, Parsed, Guarded, CheckPreconditions, Tame;
    PreconditionsSound(a.bucket[k].transition.preconditions, cx, a.env, st, fs);
  }

  lemma {:induction false} VisitSound(a: Attempt, offset: nat, i: nat, cx: Context, st: Fuzz, fs: set<Fault>)
    requires i <= |a.bucket| && ReadyBucket(a.bucket, cx) && TameBucket(a.bucket, cx, fs)
    requires Conforms(a.env) && SameTypes(cx.env, a.env)
    ensures Visit(a, offset, i, st).Fail? ==>
      Untypable(Visit(a, offset, i, st).fault) && Visit(a, offset, i, st).fault in fs
    decreases |a.bucket| - i
  {
    hide Classify, At, ReadyTransition, TameTransition, Conforms, SameTypes;
    if i < |a.bucket| {
      var k := At(|a.bucket|, offset, i);
      ClassifySound(a, k, cx, st, fs);
      var c := Classify(a, k, st);
      if c.Ok? { VisitSound(a, offset, i + 1, cx, c.value.st, fs); }
    }
  }

  lemma ReportSound(arc: Arc, cx: Context, o: Outcome, fs: set<Fault>)
    requires ReadyTransition(arc.transition, cx) && TameTransition(arc.transition, cx, fs)
    requires Conforms(o.env) && SameTypes(cx.env, o.env)
    requires forall i | 0 <= i < |o.out| :: TypedOutput(o.out[i], cx)
    ensures SoundStep(ReportFailure(arc, o), cx, o.env, o.st, fs)
  {
    hide AcceptedStatement, GuardedStatement, Conforms, TameStatement, SameTypes;
    hide Check, Parsed, Guarded, CheckPreconditions, Tame;
    var ps := arc.transition.preconditions;
    PreconditionsSound(ps, cx, o.env, o.st, fs);
    if CheckPreconditions(ps, o.env, o.st).Ok? {
      CheckingOnlyDraws(ps, o.env, o.st);
      DrawsKeepWeights(o.st, CheckPreconditions(ps, o.env, o.st).value.st);
      NothingMoves(o.env, o.st);
    }
  }

  /** An attempt can also fail its closing assertion. */
  ghost predicate SoundAttempt(r: Result<Attempted>, cx: Context, env: Env, st: Fuzz, fs: set<Fault>) {
    match r
    case Ok(v) => SoundOutcome(cx, env, st, v.outcome)
    case Fail(f) => f.BothFallbacks? || (Untypable(f) && f in fs)
  }

  lemma SoundOutcomeChain(cx: Context, env: Env, st: Fuzz, o: Outcome, o': Outcome)
    requires SoundOutcome(cx, env, st, o) && SoundOutcome(cx, o.env, o.st, o') && SameTypes(cx.env, env)
    ensures SoundOutcome(cx, env, st, o') && SameTypes(cx.env, o.env)
  {
    hide Conforms, TypedOutput, SameTypes, SameWeights;
    SameWeightsTransitive(st, o.st, o'.st);
    SameTypesTransitive(env, o.env, o'.env);
    SameTypesTransitive(cx.env, env, o.env);
  }

  lemma ConcludeSound(a: Attempt, offset: nat, f: Fallbacks, cx: Context, st: Fuzz, fs: set<Fault>)
    requires a.bucket != [] && ReadyBucket(a.bucket, cx) && TameBucket(a.bucket, cx, fs) && cx.Usable()
    requires Conforms(a.env) && SameTypes(cx.env, a.env)
    ensures SoundAttempt(Conclude(a, offset, f, st), cx, a.env, st, fs)
    ensures Conclude(a, offset, f, st) == Fail(BothFallbacks) ==> f.failure.Some? && f.candidate.Some?
    ensures f.failure.Some? && f.candidate.Some? ==> Conclude(a, offset, f, st).Fail?
  {
    hide ExecuteTransition, ReportFailure, At, ReadyTransition, TameTransition, Conforms;
    hide SameTypes, SameWeights, TypedOutput;
    var n := |a.bucket|;
    var start := Outcome(a.state, a.env, st, []);
    NothingMoves(a.env, st);
    DrawsKeepWeights(st, st);
    assert SoundOutcome(cx, a.env, st, start);
    var ran :=
      if f.chosen.Some? then ExecuteTransition(a.bucket[At(n, offset, f.chosen.value)], a.enable, start) else Ok(start);
    if f.chosen.Some? { ExecuteSound(a.bucket[At(n, offset, f.chosen.value)], a.enable, cx, start, fs); }
    if ran.Ok? {
      SoundOutcomeChain(cx, a.env, st, ran.value, ran.value) by {
        NothingMoves(ran.value.env, ran.value.st);
        DrawsKeepWeights(ran.value.st, ran.value.st);
      }
      RestSound(a, offset, f, cx, st, ran.value, fs);
    }
  }

  lemma RestSound(a: Attempt, offset: nat, f: Fallbacks, cx: Context, st: Fuzz, ran: Outcome, fs: set<Fault>)
    requires a.bucket != [] && ReadyBucket(a.bucket, cx) && TameBucket(a.bucket, cx, fs) && cx.Usable()
    requires SameTypes(cx.env, a.env) && SameTypes(cx.env, ran.env) && SoundOutcome(cx, a.env, st, ran)
    ensures var n := |a.bucket|;
      var reported := if f.failure.Some? then ReportFailure(a.bucket[At(n, offset, f.failure.value)], ran) else Ok(ran);
      SoundStep(reported, cx, a.env, st, fs) && (reported.Ok? ==>
        var retried :=
          if f.candidate.Some?
          then ExecuteTransition(a.bucket[At(n, offset, f.candidate.value)], a.enable, reported.value)
          else Ok(reported.value);
        SoundStep(retried, cx, a.env, st, fs))
  {
    hide ExecuteTransition, ReportFailure, At, ReadyTransition, TameTransition, Conforms;
    hide SameTypes, SameWeights, TypedOutput;
    var n := |a.bucket|;
    var reported := if f.failure.Some? then ReportFailure(a.bucket[At(n, offset, f.failure.value)], ran) else Ok(ran);
    if f.failure.Some? {
      ReportSound(a.bucket[At(n, offset, f.failure.value)], cx, ran, fs);
      if reported.Ok? { SoundOutcomeChain(cx, a.env, st, ran, reported.value); }
    }
    if reported.Ok? && f.candidate.Some? {
      SameTypesTransitive(cx.env, a.env, reported.value.env);
      var arc := a.bucket[At(n, offset, f.candidate.value)];
      ExecuteSound(arc, a.enable, cx, reported.value, fs);
      var retried := ExecuteTransition(arc, a.enable, reported.value);
      if retried.Ok? { SoundOutcomeChain(cx, a.env, st, reported.value, retried.value); }
    }
  }

  /**
   An attempt at accepted transitions keeps the store conforming, and only its own assertion or a fault that
   types cannot rule out stops it; under the intended rule its own assertion holds.
   */
  lemma AttemptSound(a: Attempt, cx: Context, st: Fuzz, fs: set<Fault>)
    requires ReadyBucket(a.bucket, cx) && TameBucket(a.bucket, cx, fs) && cx.Usable()
    requires Conforms(a.env) && SameTypes(cx.env, a.env)
    ensures SoundAttempt(FindAndExecute(a, st), cx, a.env, st, fs)
    ensures a.rule.Intended? ==> FindAndExecute(a, st) != Fail(BothFallbacks)
  {
    hide Visit, Settle, SettleBy, Conclude, ReadyBucket, TameBucket, Conforms, SameTypes, SameWeights, TypedOutput;
    if a.bucket == [] {
      NothingMoves(a.env, st);
      DrawsKeepWeights(st, st);
    } else {
      var offset := st.Range(0, |a.bucket|);
      VisitSound(a, offset, 0, cx, st.Advance(), fs);
      var v := Visit(a, offset, 0, st.Advance());
      if v.Ok? {
        VisitMeans(a, offset, 0, st.Advance());
        DrawsKeepWeights(st.Advance(), v.value.st);
        AdvanceKeepsWeights(st, v.value.st);
        var f := SettleBy(a.rule, v.value.classes);
        SettleByMeans(a.rule, v.value.classes);
        ConcludeSound(a, offset, f, cx, v.value.st, fs);
        var r := Conclude(a, offset, f, v.value.st);
        if r.Ok? { SameWeightsTransitive(st, v.value.st, r.value.outcome.st); }
      }
    }
  }

  lemma AdvanceKeepsWeights(st: Fuzz, st': Fuzz)
    requires SameWeights(st.Advance(), st')
    ensures SameWeights(st, st')
  {
    forall id: nat ensures st'.Weight(id) == st.Weight(id) { assert st'.Weight(id) == st.Advance().Weight(id); }
  }
}
