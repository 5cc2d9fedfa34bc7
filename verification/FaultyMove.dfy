/**
 A machine that passes every check, and whose only transition always overflows: the analysis calls the state it
 leads to reachable, and without fuzzing no run enters it. So what Lint says of reachable states has to leave
 room for faults of the transitions on the way.
 */
module FaultyMove {
  import opened Results
  import opened VariantTypes
  import opened SaturatingArithmetic
  import opened Language
  import opened Evaluator
  import opened Statements
  import opened Transitions
  import opened Scanning
  import opened Attempts
  import opened Machines
  import opened Runs
  import opened Reachability
  import opened Lint

  const SMALLEST: Literal := LInt(Int64, -0x8000_0000_0000_0000)

  const TOO_LARGE: Expr := Binary(Arith(Times), Data(0, None, SMALLEST), Data(1, None, SMALLEST))

  const TARGET: Expr := Data(2, None, LVariable(Object, "x"))

  /** A transition to state 1 that always overflows. */
  const FAULTY_ARC: Arc := Arc(0, 1, Transition(Arbitrary, [], [Assign(TARGET, TOO_LARGE)]))

  const FAULTY: Program :=
    Program(2, [FAULTY_ARC], [], Env(map[], map["x" := Variable(TInt(Int64), Some(VInt(Int64, 0)))]))

  lemma FaultyIsReady()
    ensures ReadyProgram(FAULTY) && NoFreeThrows(FAULTY)
  {
    hide Conforms, AcceptedTransition, GuardedTransition;
    FaultyConforms();
    FaultyPasses(ContextFor(FAULTY, Arbitrary).value);
  }

  lemma NumberPasses(id: nat, k: IntKind, n: int, env: Env)
    requires InRange(k, n)
    ensures var e := Data(id, None, LInt(k, n)); Parsed(e) && Check(e, env) == Some(TInt(k)) && Guarded(e, env)
  {
  }

  lemma ProductPasses(l: Expr, r: Expr, k: IntKind, env: Env)
    requires Parsed(l) && Check(l, env) == Some(TInt(k)) && Guarded(l, env)
    requires Parsed(r) && Check(r, env) == Some(TInt(k)) && Guarded(r, env)
    ensures var e := Binary(Arith(Times), l, r);
      Parsed(e) && Check(e, env) == Some(TInt(k)) && Guarded(e, env)
  {
  }

  lemma FaultyPasses(cx: Context)
    requires cx.env.Table(Object) == FAULTY.initial.objects
    ensures AcceptedTransition(FAULTY_ARC.transition, cx) && GuardedTransition(FAULTY_ARC.transition, cx)
  {
    NumberPasses(0, Int64, SMALLEST.n, cx.env);
    NumberPasses(1, Int64, SMALLEST.n, cx.env);
    ProductPasses(Data(0, None, SMALLEST), Data(1, None, SMALLEST), Int64, cx.env);
    assert Check(TARGET, cx.env) == Some(TInt(Int64)) && Guarded(TARGET, cx.env);
    assert ResponseCount(FAULTY_ARC.transition.statements) == 0 by {
      assert FAULTY_ARC.transition.statements[..0] == [];
    }
  }

  lemma FaultyConforms()
    ensures Conforms(FAULTY.initial)
  {
  }

  lemma NumberEval(id: nat, k: IntKind, n: int, env: Env, st: Fuzz)
    requires !st.Fuzzes(id)
    ensures Eval(Data(id, None, LInt(k, n)), env, st) == Out(Ok(VInt(k, n)), st)
  {
    assert Check(Data(id, None, LInt(k, n)), env) == Some(TInt(k));
  }

  lemma TooLargeOverflows(env: Env, st: Fuzz)
    requires !st.Fuzzes(0) && !st.Fuzzes(1)
    ensures Eval(TOO_LARGE, env, st).res == Fail(SignedOverflow)
  {
    NumberEval(0, Int64, SMALLEST.n, env, st);
    NumberEval(1, Int64, SMALLEST.n, env, st);
    TimesSaturates(Int64, SMALLEST.n, SMALLEST.n);
  }

  lemma FaultyFails(env: Env, st: Fuzz)
    requires forall id: nat :: st.Weight(id) == 0.0
    ensures ExecAll(FAULTY_ARC.transition.statements, env, st) == Fail(SignedOverflow)
  {
    hide SetFrom, Eval;
    var ss := FAULTY_ARC.transition.statements;
    assert st.Weight(0) == 0.0 && st.Weight(1) == 0.0;
    TooLargeOverflows(env, st);
    assert ExecStatement(ss[0], env, st) == Fail(SignedOverflow);
    assert ss[..|ss| - 1] == [] && ExecAll([], env, st) == Ok(Effect(env, st, []));
  }

  lemma FaultyBucket(trigger: Trigger)
    ensures Bucket(FAULTY.arcs, trigger) == if trigger.Arbitrary? then [FAULTY_ARC] else []
  {
    assert FAULTY.arcs[..0] == [] && [] + [FAULTY_ARC] == [FAULTY_ARC];
  }

  lemma FaultyStays(c: Config, e: Event)
    requires c.state == 0 && (forall id: nat :: c.fuzz.Weight(id) == 0.0) && Step(FAULTY, c, e).Ok?
    ensures Step(FAULTY, c, e).value.config.state == 0
  {
    hide FindAndExecute, Bucket;
    var fuzz := c.fuzz.(tape := e.tape, pos := 0);
    match e.action
    case Call(_, m, _) => FaultyBucket(MethodCall(m));
    case Set(name, _) => FaultyBucket(PropertySet(name));
    case Timeout =>
      FaultyBucket(Arbitrary);
      TapeKeepsWeights(c.fuzz, c.fuzz, e.tape);
      FaultyAttemptStays(Attempt([FAULTY_ARC], c.state, c.env, e.enable, e.permits, FAULTY.rule), fuzz);
    case Restart =>
  }

  lemma FaultyAttemptStays(a: Attempt, st: Fuzz)
    requires a.bucket == [FAULTY_ARC] && (forall id: nat :: st.Weight(id) == 0.0) && FindAndExecute(a, st).Ok?
    ensures FindAndExecute(a, st).value.outcome.state == a.state
  {
    hide FindAndExecute, ExecAll, Executed;
    AttemptEffect(a, st);
    if Executed(a, st).Some? {
      var st' :| SameWeights(st, st') && Ran(a, 0, st', FindAndExecute(a, st).value.outcome);
      FaultyFails(a.env, st');
    }
  }

  /** A state that only a faulty transition leads to is called reachable, and runs without fuzzing never enter it. */
  lemma FaultMisleads(st0: Fuzz, es: seq<Event>)
    requires (forall id: nat :: st0.Weight(id) == 0.0) && forall i | 0 <= i < |es| :: EventFits(FAULTY, es[i])
    requires Run(FAULTY, Start(FAULTY, st0), es).Ok?
    ensures ReadyProgram(FAULTY) && NoFreeThrows(FAULTY) && IsBest(Edges(FAULTY.arcs), FAULTY.states, 1, REACHABLE)
    ensures Run(FAULTY, Start(FAULTY, st0), es).value.state == 0
  {
    hide Run, ReadyProgram, NoFreeThrows, EventFits;
    FaultyIsReady();
    LoneEdgeLeads(Edges(FAULTY.arcs));
    FaultyRunStays(st0, es);
  }

  lemma {:induction false} FaultyRunStays(st0: Fuzz, es: seq<Event>)
    requires (forall id: nat :: st0.Weight(id) == 0.0) && forall i | 0 <= i < |es| :: EventFits(FAULTY, es[i])
    requires Run(FAULTY, Start(FAULTY, st0), es).Ok?
    ensures Run(FAULTY, Start(FAULTY, st0), es).value.state == 0
    decreases |es|
  {
    hide Step, EventFits;
    if es != [] {
      var init := es[..|es| - 1];
      FaultyRunStays(st0, init);
      var c := Run(FAULTY, Start(FAULTY, st0), init).value;
      FaultyIsReady();
      AlwaysTameProgram(FAULTY);
      RunKeepsInvariant(FAULTY, st0, init, UNTYPABLE);
      assert forall id: nat :: c.fuzz.Weight(id) == st0.Weight(id);
      FaultyStays(c, es[|es| - 1]);
    }
  }
}
