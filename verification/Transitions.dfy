/**
 Transitions: what the pre-check demands of them, how their preconditions are checked, and what is known
 of running their statements.
 */
module Transitions {
  import opened Results
  import opened VariantTypes
  import opened Language
  import opened Evaluator
  import opened EffectFree
  import opened TypeSoundness
  import opened Statements
  import opened Assignment

  datatype Trigger = MethodCall(name: string) | PropertySet(name: string) | Arbitrary

  /** A condition, and the name of the error to throw when it fails, if any. */
  datatype Precondition = Precondition(error: Option<string>, condition: Expr)

  datatype Transition = Transition(trigger: Trigger, preconditions: seq<Precondition>, statements: seq<Statement>) {
    /** dfsm_ast_transition_contains_throw_statement(). */
    predicate ContainsThrow() {
      exists i | 0 <= i < |statements| :: statements[i].Throw?
    }
  }

  // ----- replies ----------------------------------------------------------------------------------

  /** The outputs that end a method call: a reply or an error. */
  function AnswerCount(out: seq<Output>): nat {
    if out == [] then 0
    else AnswerCount(out[..|out| - 1]) + if out[|out| - 1].EmitOut? then 0 else 1
  }

  lemma {:induction false} AnswerCountConcat(a: seq<Output>, b: seq<Output>)
    ensures AnswerCount(a + b) == AnswerCount(a) + AnswerCount(b)
  {
    if b == [] {
      assert a + b == a;
    } else {
      assert (a + b)[..|a + b| - 1] == a + b[..|b| - 1];
      AnswerCountConcat(a, b[..|b| - 1]);
    }
  }

  predicate Responds(s: Statement) {
    s.Reply? || s.Throw?
  }

  function ResponseCount(ss: seq<Statement>): nat {
    if ss == [] then 0 else ResponseCount(ss[..|ss| - 1]) + if Responds(ss[|ss| - 1]) then 1 else 0
  }

  /** What the pre-check of a transition demands of its shape. */
  predicate WellShaped(t: Transition) {
    if t.trigger.MethodCall? then ResponseCount(t.statements) == 1
    else ResponseCount(t.statements) == 0 && forall i | 0 <= i < |t.preconditions| :: t.preconditions[i].error.None?
  }

  /** dfsm_ast_transition_pre_check_and_register(): count the replies and throws, and look for stray errors. */
  method PreCheck(t: Transition) returns (ok: bool)
    ensures ok == WellShaped(t)
  {
    for i := 0 to |t.preconditions|
      invariant !t.trigger.MethodCall? ==> forall j | 0 <= j < i :: t.preconditions[j].error.None?
    {
      if t.preconditions[i].error.Some? && !t.trigger.MethodCall? {
        return false;
      }
    }
    var replies, throws := 0, 0;
    for i := 0 to |t.statements|
      invariant 0 <= replies && 0 <= throws && replies + throws == ResponseCount(t.statements[..i])
    {
      assert t.statements[..i + 1][..i] == t.statements[..i];
      if t.statements[i].Reply? {
        replies := replies + 1;
      } else if t.statements[i].Throw? {
        throws := throws + 1;
      }
    }
    assert t.statements[..|t.statements|] == t.statements;
    if t.trigger.MethodCall? {
      if replies == 0 && throws == 0 {
        return false;
      } else if replies + throws != 1 {
        return false;
      }
    } else if replies != 0 || throws != 0 {
      return false;
    }
    return true;
  }

  lemma StatementAnswers(s: Statement, env: Env, st: Fuzz)
    requires ExecStatement(s, env, st).Ok?
    ensures AnswerCount(ExecStatement(s, env, st).value.out) == if Responds(s) then 1 else 0
  {
    hide Eval, SetFrom;
    var out := ExecStatement(s, env, st).value.out;
    assert out == [] || (|out| == 1 && out[..0] == []);
  }

  /** Running statements answers as often as there are statements that do. */
  lemma {:induction false} StatementsAnswer(ss: seq<Statement>, env: Env, st: Fuzz)
    requires ExecAll(ss, env, st).Ok?
    ensures AnswerCount(ExecAll(ss, env, st).value.out) == ResponseCount(ss)
  {
    hide ExecStatement, Responds;
    if ss != [] {
      var init, last := ss[..|ss| - 1], ss[|ss| - 1];
      StatementsAnswer(init, env, st);
      var before := ExecAll(init, env, st).value;
      StatementAnswers(last, before.env, before.st);
      AnswerCountConcat(before.out, ExecStatement(last, before.env, before.st).value.out);
    }
  }

  // ----- preconditions ----------------------------------------------------------------------------

  datatype Verdict = Satisfied | Unsatisfied(error: Option<string>)

  datatype Checked = Checked(verdict: Verdict, st: Fuzz)

  /** Check preconditions in order, up to the first that fails. */
  function CheckPreconditions(ps: seq<Precondition>, env: Env, st: Fuzz): Result<Checked> {
    if ps == [] then Ok(Checked(Satisfied, st)) else
      var o := Eval(ps[0].condition, env, st);
      var v :- o.res;
      if !v.VBool? then Fail(TypeFault)
      else if !v.b then Ok(Checked(Unsatisfied(ps[0].error), o.st))
      else CheckPreconditions(ps[1..], env, o.st)
  }

  /** dfsm_ast_transition_check_preconditions(). */
  method CheckPreconditionsLoop(ps: seq<Precondition>, env: Env, st: Fuzz) returns (r: Result<Checked>)
    ensures r == CheckPreconditions(ps, env, st)
  {
    var now := st;
    for i := 0 to |ps|
      invariant CheckPreconditions(ps, env, st) == CheckPreconditions(ps[i..], env, now)
    {
      assert ps[i..][1..] == ps[i + 1..];
      var o := Eval(ps[i].condition, env, now);
      now := o.st;
      if o.res.Fail? {
        return Fail(o.res.fault);
      }
      if !o.res.value.VBool? {
        return Fail(TypeFault);
      }
      if !o.res.value.b {
        return Ok(Checked(Unsatisfied(ps[i].error), now));
      }
    }
    return Ok(Checked(Satisfied, now));
  }

  lemma {:induction false} CheckingOnlyDraws(ps: seq<Precondition>, env: Env, st: Fuzz)
    requires CheckPreconditions(ps, env, st).Ok?
    ensures OnlyDraws(st, CheckPreconditions(ps, env, st).value.st)
    ensures var v := CheckPreconditions(ps, env, st).value.verdict;
      v.Unsatisfied? ==> exists i :: 0 <= i < |ps| && ps[i].error == v.error
  {
    if ps != [] {
      EvalOnlyDraws(ps[0].condition, env, st);
      var o := Eval(ps[0].condition, env, st);
      if o.res.value.b {
        CheckingOnlyDraws(ps[1..], env, o.st);
        Chain(st, o.st, CheckPreconditions(ps, env, st).value.st);
        var v := CheckPreconditions(ps, env, st).value.verdict;
        if v.Unsatisfied? {
          var i :| 0 <= i < |ps[1..]| && ps[1..][i].error == v.error;
          assert ps[i + 1].error == v.error;
        }
      }
    }
  }

  // ----- preconditions without fuzzing ------------------------------------------------------------

  /** No node of the expression has a weight, so it is never fuzzed, whether fuzzing is on or off. */
  predicate Unfuzzed(e: Expr, st: Fuzz) {
    Calm(e, st.(enabled := true))
  }

  ghost predicate SameWeights(st: Fuzz, st': Fuzz) {
    forall id: nat {:trigger st'.Weight(id)} :: st'.Weight(id) == st.Weight(id)
  }

  lemma {:induction false} UnfuzzedIsCalm(e: Expr, st: Fuzz, st': Fuzz)
    requires Unfuzzed(e, st) && SameWeights(st, st')
    ensures Calm(e, st')
    decreases e
  {
    match e
    case Data(id, _, lit) => assert st'.Weight(id) == st.Weight(id); UnfuzzedLiteralIsCalm(lit, st, st');
    case Not(c) => UnfuzzedIsCalm(c, st, st');
    case Binary(_, l, r) => UnfuzzedIsCalm(l, st, st'); UnfuzzedIsCalm(r, st, st');
    case Call(_, p) => UnfuzzedIsCalm(p, st, st');
  }

  lemma {:induction false} UnfuzzedLiteralIsCalm(lit: Literal, st: Fuzz, st': Fuzz)
    requires CalmLiteral(lit, st.(enabled := true)) && SameWeights(st, st')
    ensures CalmLiteral(lit, st')
    decreases lit
  {
    match lit
    case LArray(items) => forall i | 0 <= i < |items| ensures Calm(items[i], st') { UnfuzzedIsCalm(items[i], st, st'); }
    case LStruct(items) =>
      forall i | 0 <= i < |items| ensures Calm(items[i], st') { UnfuzzedIsCalm(items[i], st, st'); }
    case LVariant(inner) => UnfuzzedIsCalm(inner, st, st');
    case LDict(entries) =>
      forall i | 0 <= i < |entries| ensures Calm(entries[i].key, st') && Calm(entries[i].val, st') {
        UnfuzzedIsCalm(entries[i].key, st, st');
        UnfuzzedIsCalm(entries[i].val, st, st');
      }
    case _ =>
  }

  predicate UnfuzzedPreconditions(ps: seq<Precondition>, st: Fuzz) {
    forall i | 0 <= i < |ps| :: Unfuzzed(ps[i].condition, st)
  }

  /** Weights being all that matters, a precondition that is not fuzzed stays so. */
  lemma UnfuzzedPersists(ps: seq<Precondition>, st: Fuzz, st': Fuzz)
    requires UnfuzzedPreconditions(ps, st) && SameWeights(st, st')
    ensures UnfuzzedPreconditions(ps, st')
  {
    var on := st'.(enabled := true);
    forall id: nat ensures on.Weight(id) == st.Weight(id) { assert st'.Weight(id) == st.Weight(id); }
    forall i | 0 <= i < |ps| ensures Unfuzzed(ps[i].condition, st') {
      UnfuzzedIsCalm(ps[i].condition, st, on);
    }
  }

  predicate Holding(p: Precondition, env: Env) {
    Plain(p.condition, env) == Ok(VBool(true))
  }

  predicate AllHolding(ps: seq<Precondition>, env: Env) {
    forall i | 0 <= i < |ps| :: Holding(ps[i], env)
  }

  /** Without fuzzing a check draws nothing, and finds the first precondition that does not hold. */
  lemma {:induction false} UnfuzzedCheck(ps: seq<Precondition>, env: Env, st: Fuzz, st': Fuzz)
    requires UnfuzzedPreconditions(ps, st) && SameWeights(st, st')
    requires CheckPreconditions(ps, env, st').Ok?
    ensures CheckPreconditions(ps, env, st').value.st == st'
    ensures CheckPreconditions(ps, env, st').value.verdict.Satisfied? <==> AllHolding(ps, env)
    ensures forall i | 0 <= i < |ps| ::
      !Holding(ps[i], env) && AllHolding(ps[..i], env) ==>
      CheckPreconditions(ps, env, st').value.verdict == Unsatisfied(ps[i].error)
  {
    if ps != [] {
      UnfuzzedIsCalm(ps[0].condition, st, st');
      CalmEval(ps[0].condition, env, st');
      if Holding(ps[0], env) {
        UnfuzzedCheck(ps[1..], env, st, st');
        assert AllHolding(ps, env) <==> AllHolding(ps[1..], env) by {
          assert forall i | 0 < i < |ps| :: ps[i] == ps[1..][i - 1];
        }
        forall i | 0 <= i < |ps| && !Holding(ps[i], env) && AllHolding(ps[..i], env)
          ensures CheckPreconditions(ps, env, st').value.verdict == Unsatisfied(ps[i].error)
        {
          assert ps[i] == ps[1..][i - 1];
          assert ps[1..][..i - 1] == ps[..i][1..];
        }
      } else {
        forall i | 0 < i < |ps| ensures !AllHolding(ps[..i], env) { assert ps[..i][0] == ps[0]; }
      }
    }
  }

  // ----- accepted transitions ---------------------------------------------------------------------

  /** What a transition is checked against: the types of its variables, of the signals, and of its reply. */
  datatype Context = Context(env: Env, signals: Signals, outs: seq<Ty>) {
    predicate Usable() {
      && DBusType(TTuple(outs))
      && forall s | s in signals :: DBusType(TTuple(signals[s]))
    }
  }

  predicate AcceptedStatement(s: Statement, cx: Context) {
    && CheckStatement(s, cx.env, cx.signals)
    && (s.Reply? ==> Subtype(Check(s.reply, cx.env).value, TTuple(cx.outs)))
  }

  /** The pre-check and check of a transition, as written. */
  predicate AcceptedTransition(t: Transition, cx: Context) {
    && WellShaped(t)
    && (forall i | 0 <= i < |t.preconditions| ::
          Parsed(t.preconditions[i].condition) && Check(t.preconditions[i].condition, cx.env) == Some(TBool))
    && (forall i | 0 <= i < |t.statements| :: AcceptedStatement(t.statements[i], cx))
  }

  /** The tests the checker of expressions lacks, on every expression of a transition. */
  predicate GuardedTransition(t: Transition, cx: Context) {
    && (forall i | 0 <= i < |t.preconditions| :: Guarded(t.preconditions[i].condition, cx.env))
    && (forall i | 0 <= i < |t.statements| :: GuardedStatement(t.statements[i], cx.env))
  }

  predicate TameTransition(t: Transition, cx: Context, fs: set<Fault>) {
    && (forall i | 0 <= i < |t.preconditions| :: Tame(t.preconditions[i].condition, cx.env, fs))
    && (forall i | 0 <= i < |t.statements| :: TameStatement(t.statements[i], cx.env, fs))
  }

  /** No transition has a source of any other fault. */
  lemma AlwaysTameTransition(t: Transition, cx: Context)
    ensures TameTransition(t, cx, UNTYPABLE)
  {
    forall i | 0 <= i < |t.preconditions| ensures Tame(t.preconditions[i].condition, cx.env, UNTYPABLE) {
      AlwaysTame(t.preconditions[i].condition, cx.env);
    }
    forall i | 0 <= i < |t.statements| ensures TameStatement(t.statements[i], cx.env, UNTYPABLE) {
      AlwaysTameStatement(t.statements[i], cx.env);
    }
  }

  lemma AlwaysTameStatement(s: Statement, env: Env)
    ensures TameStatement(s, env, UNTYPABLE)
  {
    match s
    case Assign(_, rvalue) => AlwaysTame(rvalue, env);
    case Throw(_) =>
    case Emit(_, params) => AlwaysTame(params, env);
    case Reply(reply) => AlwaysTame(reply, env);
  }

  predicate ReadyStatement(s: Statement, cx: Context) {
    AcceptedStatement(s, cx) && GuardedStatement(s, cx.env)
  }

  /** A reply of the declared type, a declared signal with parameters of its types, or an error. */
  predicate TypedOutput(o: Output, cx: Context) {
    match o
    case ReplyOut(v) => HasType(v, TTuple(cx.outs))
    case ThrowOut(_) => true
    case EmitOut(s, v) => s in cx.signals && HasType(v, TTuple(cx.signals[s]))
  }

  /** What running statements keeps, and what can still go wrong. */
  ghost predicate SoundEffect(r: Result<Effect>, cx: Context, env: Env, st: Fuzz, fs: set<Fault>) {
    match r
    case Ok(e) =>
      && Conforms(e.env) && SameTypes(env, e.env) && OnlyDraws(st, e.st)
      && forall i | 0 <= i < |e.out| :: TypedOutput(e.out[i], cx)
    case Fail(f) => Untypable(f) && f in fs
  }

  lemma SameTypesTransitive(a: Env, b: Env, c: Env)
    requires SameTypes(a, b) && SameTypes(b, c)
    ensures SameTypes(a, c)
  {
  }

  lemma ReadyTransfers(e: Expr, env: Env, env': Env, fs: set<Fault>)
    requires Ready(e, env) && Tame(e, env, fs) && SameTypes(env, env')
    ensures Ready(e, env') && Tame(e, env', fs) && Check(e, env') == Check(e, env)
  {
    CheckDependsOnTypes(e, env, env');
    GuardedDependsOnTypes(e, env, env');
    TameDependsOnTypes(e, env, env', fs);
  }

  lemma AssignSound(s: Statement, cx: Context, env: Env, st: Fuzz, fs: set<Fault>)
    requires s.Assign? && ReadyStatement(s, cx) && TameStatement(s, cx.env, fs)
    requires Conforms(env) && SameTypes(cx.env, env)
    ensures SoundEffect(ExecStatement(s, env, st), cx, env, st, fs)
  {
    hide Check, Guarded, Parsed, Conforms, WellFormed, TypeOf, Eval, SetFrom, SameTypes, Tame;
    ReadyTransfers(s.rvalue, cx.env, env, fs);
    CheckDependsOnTypes(s.target, cx.env, env);
    EvalSound(s.rvalue, env, st, fs);
    EvalOnlyDraws(s.rvalue, env, st);
    var r := Eval(s.rvalue, env, st);
    if r.res.Ok? {
      CheckedIsDefinite(s.target, env);
      SubtypeOfDefinite(Check(s.rvalue, env).value, Check(s.target, env).value);
      StructAssignmentSucceeds(s.target, env, r.res.value);
      SetFromFrame(s.target, env, r.res.value);
      SetFromConforms(s.target, env, r.res.value);
    }
  }

  lemma OutputSound(s: Statement, cx: Context, env: Env, st: Fuzz, fs: set<Fault>)
    requires !s.Assign? && ReadyStatement(s, cx) && TameStatement(s, cx.env, fs) && cx.Usable()
    requires Conforms(env) && SameTypes(cx.env, env)
    ensures SoundEffect(ExecStatement(s, env, st), cx, env, st, fs)
  {
    hide Check, Guarded, Parsed, Conforms, WellFormed, TypeOf, Eval, Tame, DBusType, Definite;
    match s
    case Throw(_) =>
    case Emit(signal, params) => DeclaredType(params, cx.signals[signal], cx, env, st, fs);
    case Reply(reply) => DeclaredType(reply, cx.outs, cx, env, st, fs);
  }

  lemma DeclaredType(e: Expr, ts: seq<Ty>, cx: Context, env: Env, st: Fuzz, fs: set<Fault>)
    requires Ready(e, cx.env) && Tame(e, cx.env, fs)
    requires Subtype(Check(e, cx.env).value, TTuple(ts)) && DBusType(TTuple(ts))
    requires Conforms(env) && SameTypes(cx.env, env)
    ensures Sound(Eval(e, env, st).res, TTuple(ts), fs) && OnlyDraws(st, Eval(e, env, st).st)
  {
    DBusTypeIsDefinite(TTuple(ts));
    SubtypeOfDefinite(Check(e, cx.env).value, TTuple(ts));
    ReadyTransfers(e, cx.env, env, fs);
    EvalSound(e, env, st, fs);
    EvalOnlyDraws(e, env, st);
  }

  lemma StatementSound(s: Statement, cx: Context, env: Env, st: Fuzz, fs: set<Fault>)
    requires ReadyStatement(s, cx) && TameStatement(s, cx.env, fs) && cx.Usable()
    requires Conforms(env) && SameTypes(cx.env, env)
    ensures SoundEffect(ExecStatement(s, env, st), cx, env, st, fs)
  {
    if s.Assign? { AssignSound(s, cx, env, st, fs); } else { OutputSound(s, cx, env, st, fs); }
  }

  /** Running the statements of an accepted transition keeps the store conforming and outputs what is declared. */
  lemma {:induction false} StatementsSound(ss: seq<Statement>, cx: Context, env: Env, st: Fuzz, fs: set<Fault>)
    requires forall i | 0 <= i < |ss| :: ReadyStatement(ss[i], cx) && TameStatement(ss[i], cx.env, fs)
    requires cx.Usable() && Conforms(env) && SameTypes(cx.env, env)
    ensures SoundEffect(ExecAll(ss, env, st), cx, env, st, fs)
    decreases |ss|
  {
    hide ReadyStatement, TypedOutput, ExecStatement, Conforms, TameStatement, SameTypes, OnlyDraws;
    if ss == [] {
      NothingMoves(env, st);
    } else {
      var init, last := ss[..|ss| - 1], ss[|ss| - 1];
      StatementsSound(init, cx, env, st, fs);
      var r := ExecAll(init, env, st);
      if r.Ok? {
        SameTypesTransitive(cx.env, env, r.value.env);
        StatementSound(last, cx, r.value.env, r.value.st, fs);
        var r' := ExecStatement(last, r.value.env, r.value.st);
        if r'.Ok? {
          SameTypesTransitive(env, r.value.env, r'.value.env);
          Chain(st, r.value.st, r'.value.st);
        }
      }
    }
  }

  lemma NothingMoves(env: Env, st: Fuzz)
    ensures SameTypes(env, env) && OnlyDraws(st, st)
  {
  }

  /** Checking the preconditions of an accepted transition never meets a type fault. */
  lemma {:induction false} PreconditionsSound(ps: seq<Precondition>, cx: Context, env: Env, st: Fuzz, fs: set<Fault>)
    requires forall i | 0 <= i < |ps| :: Ready(ps[i].condition, cx.env) && Check(ps[i].condition, cx.env) == Some(TBool)
    requires forall i | 0 <= i < |ps| :: Tame(ps[i].condition, cx.env, fs)
    requires Conforms(env) && SameTypes(cx.env, env)
    ensures CheckPreconditions(ps, env, st).Fail? ==>
      Untypable(CheckPreconditions(ps, env, st).fault) && CheckPreconditions(ps, env, st).fault in fs
    decreases |ps|
  {
    hide Check, Guarded, Parsed, Conforms, Eval, SameTypes, Tame;
    if ps != [] {
      ReadyTransfers(ps[0].condition, cx.env, env, fs);
      EvalSound(ps[0].condition, env, st, fs);
      PreconditionsSound(ps[1..], cx, env, Eval(ps[0].condition, env, st).st, fs);
    }
  }
}
