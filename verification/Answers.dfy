/**
 Every method call is answered exactly once, by a reply or an error, and nothing else is ever answered,
 except where a fuzzed precondition makes the machine withdraw a refusal: a refusal is worked out twice.
 */
module Answers {
  import opened Results
  import opened VariantTypes
  import opened Language
  import opened Evaluator
  import opened Statements
  import opened Transitions
  import opened Scanning
  import opened Attempts
  import opened Machines
  import opened Runs

  predicate WellShapedProgram(p: Program) {
    forall k | 0 <= k < |p.arcs| :: WellShaped(p.arcs[k].transition)
  }

  /** No precondition has a weight anywhere. */
  predicate UnfuzzedProgram(p: Program, st: Fuzz) {
    forall k | 0 <= k < |p.arcs| :: UnfuzzedPreconditions(p.arcs[k].transition.preconditions, st)
  }

  lemma BucketShapes(p: Program, trigger: Trigger)
    requires WellShapedProgram(p)
    ensures trigger.MethodCall? ==> MethodBucket(Bucket(p.arcs, trigger))
    ensures !trigger.MethodCall? ==> SilentBucket(Bucket(p.arcs, trigger))
  {
    hide WellShaped;
    var bucket := Bucket(p.arcs, trigger);
    BucketMeans(p.arcs, trigger);
    forall k | 0 <= k < |bucket| ensures bucket[k].transition.trigger == trigger && WellShaped(bucket[k].transition) {
      assert bucket[k] in p.arcs;
    }
  }

  lemma BucketUnfuzzed(p: Program, trigger: Trigger, st0: Fuzz, st: Fuzz)
    requires UnfuzzedProgram(p, st0) && SameWeights(st0, st)
    ensures UnfuzzedBucket(Bucket(p.arcs, trigger), st)
  {
    hide UnfuzzedPreconditions;
    var bucket := Bucket(p.arcs, trigger);
    BucketMeans(p.arcs, trigger);
    forall k | 0 <= k < |bucket| ensures UnfuzzedPreconditions(bucket[k].transition.preconditions, st) {
      assert bucket[k] in p.arcs;
      UnfuzzedPersists(bucket[k].transition.preconditions, st0, st);
    }
  }

  lemma UnitReplyAnswers(out: seq<Output>)
    ensures AnswerCount(out + [UNIT_REPLY]) == AnswerCount(out) + 1
  {
    assert (out + [UNIT_REPLY])[..|out|] == out;
  }

  /** The call goes unanswered: its refusal is withdrawn. */
  predicate LosesAnswer(p: Program, c: Config, e: Event) {
    && e.action.Call? && AttemptOf(p, c, e).Some?
    && Withdrawn(AttemptOf(p, c, e).value, DrawsOf(c, e))
  }

  lemma CallAnswersOnce(p: Program, c: Config, e: Event)
    requires WellShapedProgram(p) && e.action.Call? && Step(p, c, e).Ok?
    ensures AnswerCount(Step(p, c, e).value.out) == if LosesAnswer(p, c, e) then 0 else 1
  {
    hide FindAndExecute, WellShapedProgram, MethodBucket, Withdrawn;
    UnitReplyAnswers([]);
    assert [] + [UNIT_REPLY] == [UNIT_REPLY];
    if AttemptOf(p, c, e).Some? {
      var a, st := AttemptOf(p, c, e).value, DrawsOf(c, e);
      BucketShapes(p, MethodCall(e.action.methodName));
      AnsweredUnlessWithdrawn(a, st);
      if Withdrawn(a, st) { WithdrawnIsQuiet(a, st); }
      UnitReplyAnswers(FindAndExecute(a, st).value.outcome.out);
    }
  }

  /** Where no precondition is fuzzed no answer is lost. */
  lemma UnfuzzedLosesNoAnswer(p: Program, st0: Fuzz, c: Config, e: Event)
    requires UnfuzzedProgram(p, st0) && SameWeights(st0, c.fuzz)
    ensures !LosesAnswer(p, c, e)
  {
    hide Withdrawn, UnfuzzedPreconditions;
    if e.action.Call? && AttemptOf(p, c, e).Some? {
      var a, st := AttemptOf(p, c, e).value, DrawsOf(c, e);
      TapeKeepsWeights(st0, c.fuzz, e.tape);
      BucketUnfuzzed(p, MethodCall(e.action.methodName), st0, st);
      UnfuzzedIsNotWithdrawn(a, st);
    }
  }

  lemma SetNeverAnswers(p: Program, c: Config, name: string, v: Value, enable: bool, permits: nat -> bool)
    requires WellShapedProgram(p) && SetProperty(p, c, name, v, enable, permits).Ok?
    ensures AnswerCount(SetProperty(p, c, name, v, enable, permits).value.out) == 0
  {
    hide FindAndExecute, WellShapedProgram, SilentBucket;
    var bucket := Bucket(p.arcs, PropertySet(name));
    if bucket != [] {
      var bound := BindArgs(c.env, [Arg("value", TypeOf(v))], [v]).value;
      BucketShapes(p, PropertySet(name));
      NeverAnswered(Attempt(bucket, c.state, bound, enable, permits, p.rule), c.fuzz);
    }
  }

  /**
   A call that is got through is answered exactly once unless its refusal is withdrawn; a property set, an
   arbitrary transition or a reset is not answered.
   */
  lemma StepAnswers(p: Program, c: Config, e: Event)
    requires WellShapedProgram(p) && Step(p, c, e).Ok?
    ensures AnswerCount(Step(p, c, e).value.out) == if e.action.Call? && !LosesAnswer(p, c, e) then 1 else 0
  {
    hide FindAndExecute, WellShapedProgram, SetProperty, CallMethod, LosesAnswer;
    var c' := c.(fuzz := DrawsOf(c, e));
    match e.action
    case Call(_, _, _) => CallAnswersOnce(p, c, e);
    case Set(name, v) => SetNeverAnswers(p, c', name, v, e.enable, e.permits);
    case Timeout =>
      BucketShapes(p, Arbitrary);
      NeverAnswered(Attempt(Bucket(p.arcs, Arbitrary), c'.state, c'.env, e.enable, e.permits, p.rule), c'.fuzz);
    case Restart =>
  }

  /**
   In every run of an accepted program each step answers its call exactly once, if it is a call, unless its
   refusal is withdrawn; and that takes a fuzzed precondition.
   */
  lemma EveryCallIsAnsweredOnce(p: Program, st0: Fuzz, es: seq<Event>, e: Event)
    requires ReadyProgram(p)
    requires forall i | 0 <= i < |es| :: EventFits(p, es[i])
    requires Run(p, Start(p, st0), es).Ok? && Step(p, Run(p, Start(p, st0), es).value, e).Ok?
    ensures var c := Run(p, Start(p, st0), es).value;
      && AnswerCount(Step(p, c, e).value.out) == (if e.action.Call? && !LosesAnswer(p, c, e) then 1 else 0)
      && (UnfuzzedProgram(p, st0) ==> !LosesAnswer(p, c, e))
  {
    hide Step, Run, UnfuzzedProgram, EventFits, GuardedProgram, LosesAnswer;
    AlwaysTameProgram(p);
    RunKeepsInvariant(p, st0, es, UNTYPABLE);
    var c := Run(p, Start(p, st0), es).value;
    StepAnswers(p, c, e);
    if UnfuzzedProgram(p, st0) { UnfuzzedLosesNoAnswer(p, st0, c, e); }
  }

  // ----- a fuzzed precondition that loses an answer -----------------------------------------------------

  const FICKLE: Precondition := Precondition(Some("Refused"), Data(0, None, LBool(false)))

  const FICKLE_ARC: Arc := Arc(0, 0, Transition(MethodCall("M"), [FICKLE], [Reply(Data(1, None, LStruct([])))]))

  /** The precondition is false when it is first worked out and true the second time. */
  const FICKLE_DRAWS: nat -> Draw := (i: nat) => Draw(if i == 1 then 1 else 0, "", 0.0, TBool)

  const FICKLE_FUZZ: Fuzz := Fuzz(true, map[0 := 1.0], FICKLE_DRAWS, 0)

  /** A lone transition that is refused with an error and then passes its second check outputs nothing. */
  lemma LoneRefusalWithdrawn(a: Attempt, st: Fuzz, error: string, st2: Fuzz, st3: Fuzz)
    requires |a.bucket| == 1 && a.bucket[0].from == a.state && a.permits(0)
    requires var ps := a.bucket[0].transition.preconditions;
      && CheckPreconditions(ps, a.env, st.Advance()) == Ok(Checked(Unsatisfied(Some(error)), st2))
      && CheckPreconditions(ps, a.env, st2) == Ok(Checked(Satisfied, st3))
    ensures FindAndExecute(a, st) == Ok(Attempted(true, Outcome(a.state, a.env, st3, [])))
  {
    hide CheckPreconditions, ExecuteTransition;
    assert st.Range(0, 1) == 0 && At(1, 0, 0) == 0;
    assert Classify(a, 0, st.Advance()) == Ok(Classified(Refused(true), st2));
    assert Visit(a, 0, 1, st2) == Ok(Visited([], st2));
    var cs := [Refused(true)];
    assert [Refused(true)] + [] == cs && Visit(a, 0, 0, st.Advance()) == Ok(Visited(cs, st2));
    assert cs[..0] == [] && Settle(cs[..0]) == NOTHING_FOUND;
    assert Settle(cs) == Fallbacks(None, None, Some(0));
    assert [] + Errors(Satisfied) == [];
  }

  /** A call whose only transition has a fuzzed precondition can go unanswered. */
  lemma FuzzedPreconditionLosesAnswer()
    ensures var a := Attempt([FICKLE_ARC], 0, Env(map[], map[]), true, (k: nat) => true);
      && MethodBucket(a.bucket)
      && FindAndExecute(a, FICKLE_FUZZ).Ok?
      && FindAndExecute(a, FICKLE_FUZZ).value.outputted
      && AnswerCount(FindAndExecute(a, FICKLE_FUZZ).value.outcome.out) == 0
  {
    hide FindAndExecute, CheckPreconditions;
    var a := Attempt([FICKLE_ARC], 0, Env(map[], map[]), true, (k: nat) => true);
    var st1 := FICKLE_FUZZ.Advance();
    var st2 := st1.Advance();
    FickleVerdict(a.env, st1);
    FickleVerdict(a.env, st2);
    LoneRefusalWithdrawn(a, FICKLE_FUZZ, "Refused", st2, st2.Advance());
    var ss := FICKLE_ARC.transition.statements;
    assert ss[..0] == [] && ResponseCount(ss) == 1;
  }

  lemma FickleVerdict(env: Env, st: Fuzz)
    requires st.enabled && st.Weight(0) == 1.0
    ensures CheckPreconditions([FICKLE], env, st) ==
      Ok(Checked(if st.Coin() then Unsatisfied(Some("Refused")) else Satisfied, st.Advance()))
  {
    assert Check(FICKLE.condition, env) == Some(TBool);
    assert [FICKLE][1..] == [];
  }
}
