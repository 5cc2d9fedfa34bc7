/**
 What a transition can do while it is fuzzed: which verdicts its preconditions can get, what its statements can leave
 and output, and so exactly which outcomes some draws give an attempt that executes it, and the step around it.
 */
module FuzzedTransitions {
  import opened Results
  import opened VariantTypes
  import opened Language
  import opened Evaluator
  import opened EffectFree
  import opened Statements
  import opened Transitions
  import opened Scanning
  import opened Attempts
  import opened Locality
  import opened Fuzzing
  import opened Possibilities
  import opened Machines
  import opened Steps

  // ----- preconditions ----------------------------------------------------------------------------

  ghost predicate MayHold(p: Precondition, env: Env, hot: set<nat>, holds: bool) {
    MayHave(p.condition, env, hot, VBool(holds))
  }

  /** The verdict is possible, where these nodes are fuzzed. */
  ghost predicate MayJudge(ps: seq<Precondition>, env: Env, hot: set<nat>, v: Verdict) {
    match v
    case Satisfied => MayAllHold(ps, env, hot)
    case Unsatisfied(error) =>
      exists i | 0 <= i < |ps| ::
        ps[i].error == error && MayHold(ps[i], env, hot, false) && MayAllHold(ps[..i], env, hot)
  }

  ghost predicate MayAllHold(ps: seq<Precondition>, env: Env, hot: set<nat>) {
    forall i | 0 <= i < |ps| :: MayHold(ps[i], env, hot, true)
  }

  lemma {:induction false} VerdictMayBe(ps: seq<Precondition>, env: Env, st: Fuzz, hot: set<nat>)
    requires Heats(st, hot) && CheckPreconditions(ps, env, st).Ok?
    ensures MayJudge(ps, env, hot, CheckPreconditions(ps, env, st).value.verdict)
    decreases |ps|
  {
    hide Eval, Heats, OnlyDraws, MayJudge, MayHold;
    if ps == [] {
      NothingToJudge(env, hot);
    } else {
      var out := Eval(ps[0].condition, env, st);
      EvalMayHave(ps[0].condition, env, st, hot);
      assert MayHold(ps[0], env, hot, out.res.value.b) by { HoldIs(ps[0], env, hot, out.res.value.b); }
      if out.res.value.b {
        EvalOnlyDraws(ps[0].condition, env, st);
        HeatsOn(st, out.st, hot);
        VerdictMayBe(ps[1..], env, out.st, hot);
        JudgeGrows(ps, env, hot, CheckPreconditions(ps[1..], env, out.st).value.verdict);
      } else {
        JudgeStops(ps, env, hot);
      }
    }
  }

  lemma NothingToJudge(env: Env, hot: set<nat>)
    ensures MayJudge([], env, hot, Satisfied)
  {
  }

  lemma HoldIs(p: Precondition, env: Env, hot: set<nat>, holds: bool)
    requires MayHave(p.condition, env, hot, VBool(holds))
    ensures MayHold(p, env, hot, holds)
  {
    hide MayHave;
  }

  lemma JudgeGrows(ps: seq<Precondition>, env: Env, hot: set<nat>, v: Verdict)
    requires ps != [] && MayHold(ps[0], env, hot, true) && MayJudge(ps[1..], env, hot, v)
    ensures MayJudge(ps, env, hot, v)
  {
    hide MayHold;
    match v
    case Satisfied =>
      forall i | 0 < i < |ps| ensures MayHold(ps[i], env, hot, true) { assert ps[i] == ps[1..][i - 1]; }
    case Unsatisfied(error) =>
      var i :| 0 <= i < |ps[1..]| && ps[1..][i].error == error && MayHold(ps[1..][i], env, hot, false)
        && MayAllHold(ps[1..][..i], env, hot);
      var before := ps[..i + 1];
      forall j | 0 < j < |before| ensures MayHold(before[j], env, hot, true) {
        assert before[j] == ps[1..][..i][j - 1];
      }
      assert ps[i + 1] == ps[1..][i] && MayAllHold(before, env, hot);
  }

  lemma JudgeStops(ps: seq<Precondition>, env: Env, hot: set<nat>)
    requires ps != [] && MayHold(ps[0], env, hot, false)
    ensures MayJudge(ps, env, hot, Unsatisfied(ps[0].error))
  {
    hide MayHold;
    assert MayAllHold(ps[..0], env, hot);
  }

  /** Those draws lead to the verdict. */
  ghost predicate Judges(st: Fuzz, ds: seq<Draw>, r: Result<Checked>, v: Verdict) {
    r.Ok? && r.value.verdict == v && OnlyDraws(st, r.value.st) && r.value.st.pos == st.pos + |ds|
  }

  lemma {:induction false} VerdictIsDrawn(ps: seq<Precondition>, env: Env, hot: set<nat>, v: Verdict)
    returns (ds: seq<Draw>)
    requires MayJudge(ps, env, hot, v)
    ensures forall st | On(st, hot, ds) :: Judges(st, ds, CheckPreconditions(ps, env, st), v)
    decreases |ps|
  {
    hide Eval, On, OnlyDraws, MayHold, MayJudge;
    if ps == [] {
      ds := [];
      NothingElse(env, hot, v);
      forall st | On(st, hot, ds) ensures Judges(st, ds, CheckPreconditions(ps, env, st), v) { NothingDrawn(st); }
    } else if MayHold(ps[0], env, hot, true) && MayJudge(ps[1..], env, hot, v) {
      var a := HoldIsDrawn(ps[0], env, hot, true);
      var b := VerdictIsDrawn(ps[1..], env, hot, v);
      ds := a + b;
      forall st | On(st, hot, ds) ensures Judges(st, ds, CheckPreconditions(ps, env, st), v) {
        var out := Eval(ps[0].condition, env, st);
        Chained(st, hot, a, b, out, VBool(true));
        Total(st, a, b, out, VBool(true), CheckPreconditions(ps[1..], env, out.st).value.st);
      }
    } else {
      JudgeSplits(ps, env, hot, v);
      ds := HoldIsDrawn(ps[0], env, hot, false);
      forall st | On(st, hot, ds) ensures Judges(st, ds, CheckPreconditions(ps, env, st), v) {
        assert Makes(st, ds, Eval(ps[0].condition, env, st), VBool(false));
      }
    }
  }

  lemma NothingElse(env: Env, hot: set<nat>, v: Verdict)
    requires MayJudge([], env, hot, v)
    ensures v == Satisfied
  {
  }

  lemma JudgeSplits(ps: seq<Precondition>, env: Env, hot: set<nat>, v: Verdict)
    requires ps != [] && MayJudge(ps, env, hot, v)
    ensures (MayHold(ps[0], env, hot, true) && MayJudge(ps[1..], env, hot, v))
      || (MayHold(ps[0], env, hot, false) && v == Unsatisfied(ps[0].error))
  {
    hide MayHold;
    match v
    case Satisfied =>
    case Unsatisfied(error) =>
      var i :| 0 <= i < |ps|
        && ps[i].error == error && MayHold(ps[i], env, hot, false) && MayAllHold(ps[..i], env, hot);
      if i > 0 {
        assert ps[..i][0] == ps[0];
        var before := ps[1..][..i - 1];
        forall j | 0 <= j < |before| ensures MayHold(before[j], env, hot, true) { assert before[j] == ps[..i][j + 1]; }
        assert ps[1..][i - 1] == ps[i] && MayAllHold(before, env, hot);
      }
  }

  lemma HoldIsDrawn(p: Precondition, env: Env, hot: set<nat>, holds: bool) returns (ds: seq<Draw>)
    requires MayHold(p, env, hot, holds)
    ensures forall st | On(st, hot, ds) :: Makes(st, ds, Eval(p.condition, env, st), VBool(holds))
  {
    hide On, Makes, MayHave, Eval;
    ds := IsDrawn(p.condition, env, hot, VBool(holds));
  }

  /** Some draws give preconditions a verdict just when it is possible with the nodes that are fuzzed. */
  lemma CanJudgeIff(ps: seq<Precondition>, env: Env, st: Fuzz, v: Verdict)
    ensures (exists tape :: Judged(ps, env, st.(tape := tape), v)) <==> MayJudge(ps, env, Hot(st), v)
  {
    hide CheckPreconditions, MayJudge, Heats, Hot, WithDraws;
    if tape :| Judged(ps, env, st.(tape := tape), v) {
      HotHeats(st.(tape := tape));
      SameHot(st, tape);
      VerdictMayBe(ps, env, st.(tape := tape), Hot(st));
    }
    if MayJudge(ps, env, Hot(st), v) {
      var ds := VerdictIsDrawn(ps, env, Hot(st), v);
      WithDrawsOn(st, ds);
      assert Judges(WithDraws(st, ds), ds, CheckPreconditions(ps, env, WithDraws(st, ds)), v);
      assert Judged(ps, env, st.(tape := WithDraws(st, ds).tape), v);
    }
  }

  predicate Judged(ps: seq<Precondition>, env: Env, st: Fuzz, v: Verdict) {
    CheckPreconditions(ps, env, st).Ok? && CheckPreconditions(ps, env, st).value.verdict == v
  }

  // ----- classes ----------------------------------------------------------------------------------

  ghost predicate MayFind(a: Attempt, k: nat, hot: set<nat>, v: Verdict)
    requires k < |a.bucket|
  {
    a.bucket[k].from == a.state && a.permits(k) && MayJudge(a.bucket[k].transition.preconditions, a.env, hot, v)
  }

  /** What a scan may make of the transition, where these nodes are fuzzed. */
  ghost predicate MayClassify(a: Attempt, k: nat, hot: set<nat>, c: Class)
    requires k < |a.bucket|
  {
    var throws := a.bucket[k].transition.ContainsThrow();
    match c
    case Skipped => a.bucket[k].from != a.state || !a.permits(k)
    case Refused(error) => exists e: Option<string> :: e.Some? == error && MayFind(a, k, hot, Unsatisfied(e))
    case Deferred => throws && MayFind(a, k, hot, Satisfied)
    case Runnable => (throws ==> a.enable) && MayFind(a, k, hot, Satisfied)
  }

  lemma AkinHeats(st: Fuzz, st': Fuzz)
    requires Akin(st, st')
    ensures Heats(st', Hot(st))
  {
    HotHeats(st);
    forall id: nat ensures st'.Fuzzes(id) <==> id in Hot(st) {
      assert st'.Weight(id) == st.Weight(id) && (st.Fuzzes(id) <==> id in Hot(st));
    }
  }

  lemma ClassMayBe(a: Attempt, k: nat, st: Fuzz, st': Fuzz)
    requires k < |a.bucket| && Akin(st, st') && Classify(a, k, st').Ok?
    ensures MayClassify(a, k, Hot(st), Classify(a, k, st').value.kind)
  {
    hide Akin, Heats, Hot, CheckPreconditions, MayJudge;
    AkinHeats(st, st');
    if a.bucket[k].from == a.state && a.permits(k) {
      var ps := a.bucket[k].transition.preconditions;
      VerdictMayBe(ps, a.env, st', Hot(st));
      assert MayFind(a, k, Hot(st), CheckPreconditions(ps, a.env, st').value.verdict);
    }
  }

  /** A transition of this verdict, followed by this coin if one is flipped. */
  lemma FoundIsDrawn(a: Attempt, k: nat, st: Fuzz, v: Verdict, heads: bool) returns (st': Fuzz)
    requires k < |a.bucket| && MayFind(a, k, Hot(st), v)
    ensures var ps := a.bucket[k].transition.preconditions;
      && Akin(st, st') && Judged(ps, a.env, st', v)
      && CheckPreconditions(ps, a.env, st').value.st.Coin() == heads
  {
    hide On, Hot, CheckPreconditions, MayJudge, OnlyDraws, WithDraws;
    var ps := a.bucket[k].transition.preconditions;
    var b := VerdictIsDrawn(ps, a.env, Hot(st), v);
    var ds := b + ([Flip(heads)] + []);
    st' := WithDraws(st, ds);
    WithDrawsOn(st, ds);
    RetapedAkin(st, st'.tape);
    OnFirst(st', Hot(st), b, [Flip(heads)] + []);
    assert Judges(st', b, CheckPreconditions(ps, a.env, st'), v);
    var after := CheckPreconditions(ps, a.env, st').value.st;
    OnThen(st', Hot(st), b, [Flip(heads)] + [], after);
    OnNext(after, Hot(st), Flip(heads), []);
  }

  lemma RetapedAkin(st: Fuzz, tape: nat -> Draw)
    ensures Akin(st, st.(tape := tape))
  {
  }

  lemma ClassIsDrawn(a: Attempt, k: nat, st: Fuzz, c: Class)
    requires k < |a.bucket| && MayClassify(a, k, Hot(st), c)
    ensures CanBe(a, k, st, c)
  {
    hide Akin, Hot, CheckPreconditions, MayJudge;
    var st': Fuzz;
    match c {
      case Skipped => st' := st; RetapedAkin(st, st.tape); assert st.(tape := st.tape) == st;
      case Refused(error) =>
        var e: Option<string> :| e.Some? == error && MayFind(a, k, Hot(st), Unsatisfied(e));
        st' := FoundIsDrawn(a, k, st, Unsatisfied(e), false);
      case Deferred => st' := FoundIsDrawn(a, k, st, Satisfied, true);
      case Runnable => st' := FoundIsDrawn(a, k, st, Satisfied, false);
    }
    assert Classify(a, k, st').Ok? && Classify(a, k, st').value.kind == c;
  }

  /**
   Some draws lead a scan to a class for a transition just when its preconditions, with the nodes that are fuzzed,
   allow it. With this the conditions under which an answer can be lost or the fallbacks can clash speak of no draws
   at all.
   */
  lemma ClassPossibleIff(a: Attempt, k: nat, st: Fuzz, c: Class)
    requires k < |a.bucket|
    ensures CanBe(a, k, st, c) <==> MayClassify(a, k, Hot(st), c)
  {
    hide Akin, Hot, Classify, MayClassify;
    if CanBe(a, k, st, c) {
      var st' :| Akin(st, st') && Classify(a, k, st').Ok? && Classify(a, k, st').value.kind == c;
      ClassMayBe(a, k, st, st');
    }
    if MayClassify(a, k, Hot(st), c) { ClassIsDrawn(a, k, st, c); }
  }

  /** The transition can be refused with an error, and checked without one. */
  lemma WithdrawPossibleIff(a: Attempt, k: nat, st: Fuzz)
    requires k < |a.bucket|
    ensures var ps := a.bucket[k].transition.preconditions;
      CanWithdraw(a, k, st) <==>
        && MayClassify(a, k, Hot(st), Refused(true))
        && (MayJudge(ps, a.env, Hot(st), Satisfied) || MayJudge(ps, a.env, Hot(st), Unsatisfied(None)))
  {
    hide Akin, Hot, MayClassify, MayJudge, CheckPreconditions, CanBe;
    var ps := a.bucket[k].transition.preconditions;
    ClassPossibleIff(a, k, st, Refused(true));
    if CanWithdraw(a, k, st) {
      var st' :| Akin(st, st') && Reprieved(CheckPreconditions(ps, a.env, st'));
      AkinHeats(st, st');
      VerdictMayBe(ps, a.env, st', Hot(st));
    }
    forall v | v in {Satisfied, Unsatisfied(None)} && MayJudge(ps, a.env, Hot(st), v)
      ensures exists st' :: Akin(st, st') && Reprieved(CheckPreconditions(ps, a.env, st'))
    {
      CanJudgeIff(ps, a.env, st, v);
      var tape :| Judged(ps, a.env, st.(tape := tape), v);
      RetapedAkin(st, tape);
      assert Reprieved(CheckPreconditions(ps, a.env, st.(tape := tape)));
    }
  }

  // ----- statements -------------------------------------------------------------------------------

  /** The statement can leave these variables and output this, where these nodes are fuzzed. */
  ghost predicate MayDoOne(s: Statement, env: Env, hot: set<nat>, env': Env, out: seq<Output>) {
    match s
    case Assign(target, rvalue) =>
      out == [] && exists v :: MayHave(rvalue, env, hot, v) && SetFrom(target, env, v) == Ok(env')
    case Throw(error) => env' == env && out == [ThrowOut(error)]
    case Emit(signal, params) => env' == env && exists v :: MayHave(params, env, hot, v) && out == [EmitOut(signal, v)]
    case Reply(reply) => env' == env && exists v :: MayHave(reply, env, hot, v) && out == [ReplyOut(v)]
  }

  ghost predicate MayDo(ss: seq<Statement>, env: Env, hot: set<nat>, env': Env, out: seq<Output>)
    decreases |ss|
  {
    if ss == [] then env' == env && out == [] else
      var init, last := ss[..|ss| - 1], ss[|ss| - 1];
      exists mid, said, spoken ::
        MayDo(init, env, hot, mid, said) && MayDoOne(last, mid, hot, env', spoken) && out == said + spoken
  }

  lemma StatementDraws(s: Statement, env: Env, st: Fuzz)
    requires ExecStatement(s, env, st).Ok?
    ensures OnlyDraws(st, ExecStatement(s, env, st).value.st)
  {
    hide Eval, OnlyDraws, SetFrom;
    match s
    case Assign(_, rvalue) => EvalOnlyDraws(rvalue, env, st);
    case Throw(_) => NothingDrawn(st);
    case Emit(_, params) => EvalOnlyDraws(params, env, st);
    case Reply(reply) => EvalOnlyDraws(reply, env, st);
  }

  lemma {:induction false} ExecDraws(ss: seq<Statement>, env: Env, st: Fuzz)
    requires ExecAll(ss, env, st).Ok?
    ensures OnlyDraws(st, ExecAll(ss, env, st).value.st)
    decreases |ss|
  {
    hide ExecStatement, OnlyDraws;
    if ss == [] {
      NothingDrawn(st);
    } else {
      var init, last := ss[..|ss| - 1], ss[|ss| - 1];
      ExecDraws(init, env, st);
      var before := ExecAll(init, env, st).value;
      StatementDraws(last, before.env, before.st);
      Chain(st, before.st, ExecAll(ss, env, st).value.st);
    }
  }

  lemma StatementMayDo(s: Statement, env: Env, st: Fuzz, hot: set<nat>)
    requires Heats(st, hot) && ExecStatement(s, env, st).Ok?
    ensures var e := ExecStatement(s, env, st).value; MayDoOne(s, env, hot, e.env, e.out)
  {
    hide Eval, Heats, MayHave, SetFrom;
    match s
    case Assign(_, rvalue) => EvalMayHave(rvalue, env, st, hot);
    case Throw(_) =>
    case Emit(_, params) => EvalMayHave(params, env, st, hot);
    case Reply(reply) => EvalMayHave(reply, env, st, hot);
  }

  lemma {:induction false} StatementsMayDo(ss: seq<Statement>, env: Env, st: Fuzz, hot: set<nat>)
    requires Heats(st, hot) && ExecAll(ss, env, st).Ok?
    ensures var e := ExecAll(ss, env, st).value; MayDo(ss, env, hot, e.env, e.out)
    decreases |ss|
  {
    hide ExecStatement, Heats, OnlyDraws, MayDoOne;
    if ss != [] {
      var init, last := ss[..|ss| - 1], ss[|ss| - 1];
      StatementsMayDo(init, env, st, hot);
      ExecDraws(init, env, st);
      var before := ExecAll(init, env, st).value;
      HeatsOn(st, before.st, hot);
      StatementMayDo(last, before.env, before.st, hot);
    }
  }

  /** Those draws lead to the variables and the output. */
  ghost predicate Does(st: Fuzz, ds: seq<Draw>, r: Result<Effect>, env': Env, out: seq<Output>) {
    && r.Ok? && r.value.env == env' && r.value.out == out
    && OnlyDraws(st, r.value.st) && r.value.st.pos == st.pos + |ds|
  }

  lemma StatementIsDrawn(s: Statement, env: Env, hot: set<nat>, env': Env, out: seq<Output>) returns (ds: seq<Draw>)
    requires MayDoOne(s, env, hot, env', out)
    ensures forall st | On(st, hot, ds) :: Does(st, ds, ExecStatement(s, env, st), env', out)
  {
    hide Eval, On, OnlyDraws, MayHave, SetFrom;
    match s
    case Assign(target, rvalue) =>
      var v :| MayHave(rvalue, env, hot, v) && SetFrom(target, env, v) == Ok(env');
      ds := IsDrawn(rvalue, env, hot, v);
      forall st | On(st, hot, ds) ensures Does(st, ds, ExecStatement(s, env, st), env', out) {
        assert Makes(st, ds, Eval(rvalue, env, st), v);
      }
    case Throw(_) =>
      ds := [];
      forall st | On(st, hot, ds) ensures Does(st, ds, ExecStatement(s, env, st), env', out) { NothingDrawn(st); }
    case Emit(signal, params) =>
      var v :| MayHave(params, env, hot, v) && out == [EmitOut(signal, v)];
      ds := IsDrawn(params, env, hot, v);
      forall st | On(st, hot, ds) ensures Does(st, ds, ExecStatement(s, env, st), env', out) {
        assert Makes(st, ds, Eval(params, env, st), v);
      }
    case Reply(reply) =>
      var v :| MayHave(reply, env, hot, v) && out == [ReplyOut(v)];
      ds := IsDrawn(reply, env, hot, v);
      forall st | On(st, hot, ds) ensures Does(st, ds, ExecStatement(s, env, st), env', out) {
        assert Makes(st, ds, Eval(reply, env, st), v);
      }
  }

  lemma {:induction false} StatementsAreDrawn(ss: seq<Statement>, env: Env, hot: set<nat>, env': Env, out: seq<Output>)
    returns (ds: seq<Draw>)
    requires MayDo(ss, env, hot, env', out)
    ensures forall st | On(st, hot, ds) :: Does(st, ds, ExecAll(ss, env, st), env', out)
    decreases |ss|
  {
    hide ExecStatement, On, OnlyDraws, MayDoOne;
    if ss == [] {
      ds := [];
      forall st | On(st, hot, ds) ensures Does(st, ds, ExecAll(ss, env, st), env', out) { NothingDrawn(st); }
    } else {
      var init, last := ss[..|ss| - 1], ss[|ss| - 1];
      var mid, said, spoken :| MayDo(init, env, hot, mid, said) && MayDoOne(last, mid, hot, env', spoken)
        && out == said + spoken;
      hide MayDo;
      var a := StatementsAreDrawn(init, env, hot, mid, said);
      var b := StatementIsDrawn(last, mid, hot, env', spoken);
      ds := a + b;
      forall st | On(st, hot, ds) ensures Does(st, ds, ExecAll(ss, env, st), env', out) {
        OnFirst(st, hot, a, b);
        var before := ExecAll(init, env, st).value;
        OnThen(st, hot, a, b, before.st);
        Chain(st, before.st, ExecStatement(last, mid, before.st).value.st);
      }
    }
  }

  /** Some draws have the statements leave these variables and output this. */
  ghost predicate CanDo(ss: seq<Statement>, env: Env, st: Fuzz, env': Env, out: seq<Output>) {
    exists tape :: Done(ss, env, st.(tape := tape), env', out)
  }

  predicate Done(ss: seq<Statement>, env: Env, st: Fuzz, env': Env, out: seq<Output>) {
    var r := ExecAll(ss, env, st);
    r.Ok? && r.value.env == env' && r.value.out == out
  }

  /** They do so just when each statement in turn can, with the nodes that are fuzzed. */
  lemma CanDoIff(ss: seq<Statement>, env: Env, st: Fuzz, env': Env, out: seq<Output>)
    ensures CanDo(ss, env, st, env', out) <==> MayDo(ss, env, Hot(st), env', out)
  {
    hide ExecAll, MayDo, Heats, Hot, WithDraws;
    if CanDo(ss, env, st, env', out) {
      var tape :| Done(ss, env, st.(tape := tape), env', out);
      HotHeats(st.(tape := tape));
      SameHot(st, tape);
      StatementsMayDo(ss, env, st.(tape := tape), Hot(st));
    }
    if MayDo(ss, env, Hot(st), env', out) {
      var ds := StatementsAreDrawn(ss, env, Hot(st), env', out);
      WithDrawsOn(st, ds);
      assert Does(WithDraws(st, ds), ds, ExecAll(ss, env, WithDraws(st, ds)), env', out);
      assert Done(ss, env, st.(tape := WithDraws(st, ds).tape), env', out);
    }
  }

  // ----- attempts ---------------------------------------------------------------------------------

  /** The attempt executes the transition, leaves these variables and outputs this. */
  predicate Executes(a: Attempt, k: nat, st: Fuzz, env': Env, out: seq<Output>)
    requires a.bucket != []
  {
    && Executed(a, st) == Some(k) && FindAndExecute(a, st).Ok?
    && FindAndExecute(a, st).value.outcome.env == env' && FindAndExecute(a, st).value.outcome.out == out
  }

  /**
   The transition leads out of the current state and is permitted, its preconditions may all hold, and its statements
   may do this, with fuzzing as the attempt was told.
   */
  ghost predicate MayExecute(a: Attempt, k: nat, st: Fuzz, env': Env, out: seq<Output>)
    requires k < |a.bucket|
  {
    var t := a.bucket[k].transition;
    && a.bucket[k].from == a.state && a.permits(k)
    && MayJudge(t.preconditions, a.env, Hot(st), Satisfied)
    && MayDo(t.statements, a.env, Hot(st.(enabled := a.enable)), env', out)
  }

  lemma HeatsAkin(st: Fuzz, st': Fuzz, st'': Fuzz, enable: bool)
    requires SameWeights(st, st') && SameWeights(st', st'') && st''.enabled == enable
    ensures Heats(st'', Hot(st.(enabled := enable)))
  {
    var on := st.(enabled := enable);
    HotHeats(on);
    forall id: nat ensures st''.Fuzzes(id) <==> id in Hot(on) {
      assert st''.Weight(id) == st'.Weight(id) && st'.Weight(id) == st.Weight(id);
      assert on.Fuzzes(id) <==> id in Hot(on);
    }
  }

  lemma RetapedWeights(st: Fuzz, tape: nat -> Draw)
    ensures SameWeights(st, st.(tape := tape))
  {
  }

  lemma ExecutedMay(a: Attempt, k: nat, st: Fuzz, st': Fuzz, env': Env, out: seq<Output>)
    requires k < |a.bucket| && st' == st.(tape := st'.tape) && Executes(a, k, st', env', out)
    ensures MayExecute(a, k, st, env', out)
  {
    hide FindAndExecute, Executed, Heats, Hot, MayJudge, MayDo, CheckPreconditions, ExecAll, OnlyDraws, SameWeights;
    var t := a.bucket[k].transition;
    RetapedWeights(st, st'.tape);
    ExecutedFromHere(a, st');
    var s :| OnlyDraws(st', s) && Passes(t.preconditions, a.env, s);
    HotHeats(st');
    SameHot(st, st'.tape);
    HeatsOn(st', s, Hot(st));
    VerdictMayBe(t.preconditions, a.env, s, Hot(st));
    AttemptEffect(a, st');
    var o := FindAndExecute(a, st').value.outcome;
    var s' :| SameWeights(st', s') && Ran(a, k, s', o);
    HeatsAkin(st, st', s', a.enable);
    StatementsMayDo(t.statements, a.env, s', Hot(st.(enabled := a.enable)));
  }

  /** Draws for a scan that starts at the transition, finds it satisfied, and runs it. */
  lemma ExecutionIsDrawn(a: Attempt, k: nat, st: Fuzz, env': Env, out: seq<Output>) returns (ds: seq<Draw>)
    requires k < |a.bucket| && MayExecute(a, k, st, env', out)
    requires a.enable || !a.bucket[k].transition.ContainsThrow()
    ensures Executes(a, k, WithDraws(st, ds), env', out)
  {
    hide FindAndExecute, Executed, Heats, Hot, MayJudge, MayDo, CheckPreconditions, ExecAll, OnlyDraws, On, WithDraws;
    var t := a.bucket[k].transition;
    var hot, hot' := Hot(st), Hot(st.(enabled := a.enable));
    var b := VerdictIsDrawn(t.preconditions, a.env, hot, Satisfied);
    var c := if t.ContainsThrow() then [Flip(false)] else [];
    var d := StatementsAreDrawn(t.statements, a.env, hot', env', out);
    ds := [Pick(k)] + (b + (c + d));
    WithDrawsOn(st, ds);
    var st' := WithDraws(st, ds);
    OnNext(st', hot, Pick(k), b + (c + d));
    OnFirst(st'.Advance(), hot, b, c + d);
    var checked := CheckPreconditions(t.preconditions, a.env, st'.Advance()).value;
    OnThen(st'.Advance(), hot, b, c + d, checked.st);
    var end := if t.ContainsThrow() then checked.st.Advance() else checked.st;
    if t.ContainsThrow() {
      OnNext(checked.st, hot, Flip(false), d);
    } else {
      assert c + d == d;
      NothingDrawn(end);
    }
    RunsFirst(a, k, st'.Advance(), checked, end);
    Chain(st', st'.Advance(), checked.st);
    Chain(st', checked.st, end);
    Rewarmed(st, st', end, hot, a.enable, d);
    RunsAlone(a, k, st', end, env', out);
  }

  /** The scan stops at once. */
  lemma RunsFirst(a: Attempt, k: nat, st: Fuzz, checked: Checked, end: Fuzz)
    requires k < |a.bucket| && a.bucket[k].from == a.state && a.permits(k)
    requires CheckPreconditions(a.bucket[k].transition.preconditions, a.env, st) == Ok(checked)
    requires checked.verdict.Satisfied?
    requires if a.bucket[k].transition.ContainsThrow()
             then a.enable && !checked.st.Coin() && end == checked.st.Advance()
             else end == checked.st
    ensures Visit(a, k, 0, st) == Ok(Visited([Runnable], end)) && At(|a.bucket|, k, 0) == k
  {
    hide CheckPreconditions;
    Rotated(|a.bucket|, k, 0);
    assert Classify(a, k, st) == Ok(Classified(Runnable, end));
  }

  /** The statements run with the nodes fuzzed that are so with the switch as told. */
  lemma Rewarmed(st: Fuzz, st': Fuzz, end: Fuzz, hot: set<nat>, enable: bool, ds: seq<Draw>)
    requires st' == st.(tape := st'.tape) && OnlyDraws(st', end) && On(end, hot, ds)
    ensures On(end.(enabled := enable), Hot(st.(enabled := enable)), ds)
  {
    hide Heats, Hot;
    RetapedWeights(st, st'.tape);
    DrawsKeepWeights(st', end);
    EnabledWeights(st', end, enable);
    HeatsAkin(st, st', end.(enabled := enable), enable);
    forall i | 0 <= i < |ds| ensures Ahead(end.(enabled := enable), i) == ds[i] { assert Ahead(end, i) == ds[i]; }
  }

  lemma RunsAlone(a: Attempt, k: nat, st: Fuzz, end: Fuzz, env': Env, out: seq<Output>)
    requires k < |a.bucket| && st.Peek() == Pick(k)
    requires Visit(a, k, 0, st.Advance()) == Ok(Visited([Runnable], end)) && At(|a.bucket|, k, 0) == k
    requires Done(a.bucket[k].transition.statements, a.env, end.(enabled := a.enable), env', out)
    ensures Executes(a, k, st, env', out)
  {
    hide Visit, ExecAll, SettleBy, At;
    RunnableAlone(a.rule);
    assert st.Range(0, |a.bucket|) == k && [] + out == out;
  }

  /**
   Some draws have an attempt execute a transition and come to this just when that is possible with the nodes that are
   fuzzed; except that with fuzzing off a transition that throws is executed only where nothing better is found.
   */
  lemma CanExecuteIff(a: Attempt, k: nat, st: Fuzz, env': Env, out: seq<Output>)
    requires k < |a.bucket|
    ensures (exists tape :: Executes(a, k, st.(tape := tape), env', out)) ==> MayExecute(a, k, st, env', out)
    ensures (a.enable || !a.bucket[k].transition.ContainsThrow()) && MayExecute(a, k, st, env', out) ==>
      exists tape :: Executes(a, k, st.(tape := tape), env', out)
  {
    hide Executes, MayExecute, WithDraws;
    if tape :| Executes(a, k, st.(tape := tape), env', out) { ExecutedMay(a, k, st, st.(tape := tape), env', out); }
    if (a.enable || !a.bucket[k].transition.ContainsThrow()) && MayExecute(a, k, st, env', out) {
      var ds := ExecutionIsDrawn(a, k, st, env', out);
      WithDrawsOn(st, ds);
      assert Executes(a, k, st.(tape := WithDraws(st, ds).tape), env', out);
    }
  }

  // ----- steps ------------------------------------------------------------------------------------

  /** The step executes the transition, leaves these object variables and outputs this. */
  predicate Handles(p: Program, c: Config, e: Event, a: Attempt, k: nat, objects: map<string, Variable>,
                    out: seq<Output>)
    requires a.bucket != []
  {
    && Executed(a, DrawsOf(c, e)) == Some(k) && Step(p, c, e).Ok?
    && Step(p, c, e).value.config.env.objects == objects && Step(p, c, e).value.out == out
  }

  ghost predicate MayHandle(c: Config, e: Event, a: Attempt, k: nat, objects: map<string, Variable>, out: seq<Output>)
    requires k < |a.bucket|
  {
    exists locals :: MayExecute(a, k, DrawsOf(c, e), Env(locals, objects), out)
  }

  lemma OtherDraws(p: Program, c: Config, e: Event, tape: nat -> Draw)
    ensures AttemptOf(p, c, e.(tape := tape)) == AttemptOf(p, c, e)
    ensures DrawsOf(c, e.(tape := tape)) == DrawsOf(c, e).(tape := tape)
  {
    hide Bucket, BindArgs, FindInterface;
  }

  lemma HandledMay(p: Program, c: Config, e: Event, a: Attempt, k: nat, objects: map<string, Variable>,
                   out: seq<Output>, tape: nat -> Draw)
    requires k < |a.bucket| && AttemptOf(p, c, e) == Some(a)
    requires Handles(p, c, e.(tape := tape), a, k, objects, out)
    ensures MayHandle(c, e, a, k, objects, out)
  {
    hide FindAndExecute, Executed, Step, AttemptOf, MayExecute, Hot, SameWeights;
    var e', st := e.(tape := tape), DrawsOf(c, e);
    OtherDraws(p, c, e, tape);
    AttemptInStep(p, c, e', a);
    AttemptEffect(a, DrawsOf(c, e'));
    var env' := FindAndExecute(a, DrawsOf(c, e')).value.outcome.env;
    assert env' == Env(env'.locals, objects);
    ExecutedMay(a, k, st, DrawsOf(c, e'), env', out);
  }

  lemma MayBeHandled(p: Program, c: Config, e: Event, a: Attempt, k: nat, env': Env, out: seq<Output>,
                     tape: nat -> Draw)
    requires k < |a.bucket| && AttemptOf(p, c, e) == Some(a)
    requires Executes(a, k, DrawsOf(c, e).(tape := tape), env', out)
    ensures Handles(p, c, e.(tape := tape), a, k, env'.objects, out)
  {
    hide FindAndExecute, Executed, Step, AttemptOf, SameWeights;
    var e' := e.(tape := tape);
    OtherDraws(p, c, e, tape);
    AttemptEffect(a, DrawsOf(c, e'));
    StepFollows(p, c, e', a);
    AttemptInStep(p, c, e', a);
  }

  /** The same of a step: exactly these variables and outputs can come of handling an event by the transition. */
  lemma CanHandleIff(p: Program, c: Config, e: Event, a: Attempt, k: nat, objects: map<string, Variable>,
                     out: seq<Output>)
    requires k < |a.bucket| && AttemptOf(p, c, e) == Some(a)
    ensures (exists tape :: Handles(p, c, e.(tape := tape), a, k, objects, out)) ==> MayHandle(c, e, a, k, objects, out)
    ensures (a.enable || !a.bucket[k].transition.ContainsThrow()) && MayHandle(c, e, a, k, objects, out) ==>
      exists tape :: Handles(p, c, e.(tape := tape), a, k, objects, out)
  {
    hide Handles, AttemptOf, MayExecute, Executes;
    if tape :| Handles(p, c, e.(tape := tape), a, k, objects, out) { HandledMay(p, c, e, a, k, objects, out, tape); }
    if (a.enable || !a.bucket[k].transition.ContainsThrow()) && MayHandle(c, e, a, k, objects, out) {
      var locals :| MayExecute(a, k, DrawsOf(c, e), Env(locals, objects), out);
      CanExecuteIff(a, k, DrawsOf(c, e), Env(locals, objects), out);
      var tape :| Executes(a, k, DrawsOf(c, e).(tape := tape), Env(locals, objects), out);
      MayBeHandled(p, c, e, a, k, Env(locals, objects), out, tape);
    }
  }
}
