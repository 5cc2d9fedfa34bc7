/**
 What evaluation keeps, runs keep: no variable ever holds a dictionary with a repeated key, and dictSet()
 never fails, if no expression is a source of repeated keys and none come in with the events.
 */
module UniqueRuns {
  import opened Results
  import opened VariantTypes
  import opened Language
  import opened Evaluator
  import opened EffectFree
  import opened TypeSoundness
  import opened UniqueKeys
  import opened Statements
  import opened Transitions
  import opened Scanning
  import opened Attempts
  import opened Machines
  import opened Runs

  // ----- statements -------------------------------------------------------------------------------

  predicate RepeatFreeStatement(s: Statement, env: Env, hot: set<nat>) {
    match s
    case Assign(_, rvalue) => RepeatFree(rvalue, env, hot)
    case Throw(_) => true
    case Emit(_, params) => RepeatFree(params, env, hot)
    case Reply(reply) => RepeatFree(reply, env, hot)
  }

  predicate RepeatFreeTransition(t: Transition, cx: Context, hot: set<nat>) {
    && (forall i | 0 <= i < |t.preconditions| :: RepeatFree(t.preconditions[i].condition, cx.env, hot))
    && (forall i | 0 <= i < |t.statements| :: RepeatFreeStatement(t.statements[i], cx.env, hot))
  }

  /** A store in which evaluation is clean, with the variables transitions were checked against. */
  ghost predicate CleanIn(cx: Context, env: Env, st: Fuzz, hot: set<nat>) {
    CleanStore(env, st, hot) && SameTypes(cx.env, env)
  }

  /** Fuzzing is only ever switched on where the nodes in hot are all that have a weight. */
  ghost predicate EnablesOnly(enable: bool, st: Fuzz, hot: set<nat>) {
    enable ==> Weighted(st, hot)
  }

  lemma DrawnClean(cx: Context, env: Env, st: Fuzz, hot: set<nat>, enable: bool, st': Fuzz)
    requires CleanIn(cx, env, st, hot) && EnablesOnly(enable, st, hot) && OnlyDraws(st, st')
    ensures CleanIn(cx, env, st', hot) && EnablesOnly(enable, st', hot)
  {
    hide Conforms, UniqueEnv, SameTypes;
    DrawnStore(env, st, hot, st');
    DrawsKeepWeights(st, st');
    WeightedStays(st, st', hot);
  }

  lemma WeightedStays(st: Fuzz, st': Fuzz, hot: set<nat>)
    requires SameWeights(st, st')
    ensures Weighted(st, hot) ==> Weighted(st', hot)
  {
    if Weighted(st, hot) {
      forall id: nat | st'.Weight(id) > 0.0 ensures id in hot { assert st'.Weight(id) == st.Weight(id); }
    }
  }

  lemma SwitchedClean(cx: Context, env: Env, st: Fuzz, hot: set<nat>, enable: bool)
    requires Conforms(env) && UniqueEnv(env) && SameTypes(cx.env, env) && EnablesOnly(enable, st, hot)
    ensures CleanIn(cx, env, st.(enabled := enable), hot) && EnablesOnly(enable, st.(enabled := enable), hot)
  {
    hide Conforms, UniqueEnv, SameTypes;
    var st' := st.(enabled := enable);
    forall id: nat ensures st'.Weight(id) == st.Weight(id) {}
  }

  lemma CleanTransfers(e: Expr, cx: Context, env: Env, st: Fuzz, hot: set<nat>)
    requires CleanIn(cx, env, st, hot) && Ready(e, cx.env) && RepeatFree(e, cx.env, hot)
    ensures UniqueResult(Eval(e, env, st).res)
  {
    hide Check, Guarded, Parsed, RepeatFree, Eval, CleanStore;
    CheckDependsOnTypes(e, cx.env, env);
    GuardedDependsOnTypes(e, cx.env, env);
    RepeatFreeDependsOnTypes(e, cx.env, env, hot);
    EvalUnique(e, env, st, hot);
  }

  predicate UniqueStore(r: Result<Env>) {
    match r
    case Ok(env) => UniqueEnv(env)
    case Fail(f) => !f.DuplicateKey?
  }

  lemma SetVariableUnique(env: Env, scope: Scope, name: string, v: Value)
    requires UniqueEnv(env) && UniqueValue(v)
    ensures UniqueStore(SetVariable(env, scope, name, v))
  {
  }

  /** Parts of a value without repeated keys have none either. */
  lemma {:induction false} SetFromUnique(target: Expr, env: Env, v: Value)
    requires UniqueEnv(env) && UniqueValue(v)
    ensures UniqueStore(SetFrom(target, env, v))
    decreases target
  {
    hide UniqueEnv, UniqueValue, SetVariable;
    if target.Data? {
      ChildrenUnique(v);
      match target.lit
      case LArray(items) => SetAllUnique(items, env, Children(v));
      case LStruct(items) => SetAllUnique(items, env, Children(v));
      case LVariable(scope, name) => SetVariableUnique(env, scope, name, v);
      case _ =>
    }
  }

  lemma ChildrenUnique(v: Value)
    requires UniqueValue(v)
    ensures UniqueItems(Children(v))
  {
  }

  lemma {:induction false} SetAllUnique(targets: seq<Expr>, env: Env, vs: seq<Value>)
    requires UniqueEnv(env) && UniqueItems(vs)
    ensures UniqueStore(SetAll(targets, env, vs))
    decreases targets
  {
    hide UniqueEnv, UniqueValue, SetFrom;
    if targets != [] && vs != [] {
      SetFromUnique(targets[0], env, vs[0]);
      var r := SetFrom(targets[0], env, vs[0]);
      if r.Ok? { SetAllUnique(targets[1..], r.value, vs[1..]); }
    }
  }

  predicate UniqueEffect(r: Result<Effect>) {
    match r
    case Ok(e) => UniqueEnv(e.env)
    case Fail(f) => !f.DuplicateKey?
  }

  lemma StatementUnique(s: Statement, cx: Context, env: Env, st: Fuzz, hot: set<nat>)
    requires ReadyStatement(s, cx) && RepeatFreeStatement(s, cx.env, hot) && CleanIn(cx, env, st, hot)
    ensures UniqueEffect(ExecStatement(s, env, st))
  {
    hide Eval, SetFrom, Check, Guarded, Parsed, RepeatFree, Conforms, UniqueValue, SameTypes;
    match s
    case Assign(target, rvalue) =>
      CleanTransfers(rvalue, cx, env, st, hot);
      var r := Eval(rvalue, env, st);
      if r.res.Ok? { SetFromUnique(target, env, r.res.value); }
    case Throw(_) =>
    case Emit(_, params) => CleanTransfers(params, cx, env, st, hot);
    case Reply(reply) => CleanTransfers(reply, cx, env, st, hot);
  }

  lemma CleanAfter(cx: Context, env: Env, st: Fuzz, hot: set<nat>, e: Effect)
    requires CleanIn(cx, env, st, hot) && SoundEffect(Ok(e), cx, env, st, UNTYPABLE) && UniqueEnv(e.env)
    ensures CleanIn(cx, e.env, e.st, hot)
  {
    hide Conforms, UniqueEnv, SameTypes, TypedOutput;
    SameTypesTransitive(cx.env, env, e.env);
    DrawsKeepHot(st, e.st, hot);
  }

  lemma DrawsKeepHot(st: Fuzz, st': Fuzz, hot: set<nat>)
    requires HotOnly(st, hot) && OnlyDraws(st, st')
    ensures HotOnly(st', hot)
  {
  }

  lemma {:induction false} StatementsUnique(ss: seq<Statement>, cx: Context, env: Env, st: Fuzz, hot: set<nat>)
    requires forall i | 0 <= i < |ss| :: ReadyStatement(ss[i], cx) && RepeatFreeStatement(ss[i], cx.env, hot)
    requires cx.Usable() && CleanIn(cx, env, st, hot)
    ensures UniqueEffect(ExecAll(ss, env, st))
    ensures ExecAll(ss, env, st).Ok? ==> CleanIn(cx, ExecAll(ss, env, st).value.env, ExecAll(ss, env, st).value.st, hot)
    decreases |ss|
  {
    hide ReadyStatement, RepeatFreeStatement, ExecStatement, UniqueEnv, Conforms, SameTypes, TypedOutput;
    if ss != [] {
      var init, last := ss[..|ss| - 1], ss[|ss| - 1];
      StatementsUnique(init, cx, env, st, hot);
      var r := ExecAll(init, env, st);
      if r.Ok? {
        StatementUnique(last, cx, r.value.env, r.value.st, hot);
        StatementStaysSound(last, cx, r.value.env, r.value.st);
        var r' := ExecStatement(last, r.value.env, r.value.st);
        if r'.Ok? { CleanAfter(cx, r.value.env, r.value.st, hot, r'.value); }
      }
    }
  }

  lemma StatementStaysSound(s: Statement, cx: Context, env: Env, st: Fuzz)
    requires ReadyStatement(s, cx) && cx.Usable() && Conforms(env) && SameTypes(cx.env, env)
    ensures SoundEffect(ExecStatement(s, env, st), cx, env, st, UNTYPABLE)
  {
    hide ReadyStatement, Tame, ExecStatement;
    AlwaysTameStatement(s, cx.env);
    StatementSound(s, cx, env, st, UNTYPABLE);
  }

  lemma {:induction false} PreconditionsUnique(ps: seq<Precondition>, cx: Context, env: Env, st: Fuzz, hot: set<nat>)
    requires forall i | 0 <= i < |ps| :: Ready(ps[i].condition, cx.env) && RepeatFree(ps[i].condition, cx.env, hot)
    requires CleanIn(cx, env, st, hot)
    ensures CheckPreconditions(ps, env, st) != Fail(DuplicateKey)
    decreases |ps|
  {
    hide Check, Guarded, Parsed, RepeatFree, Eval, SameTypes, Conforms, UniqueEnv;
    if ps != [] {
      CleanTransfers(ps[0].condition, cx, env, st, hot);
      EvalOnlyDraws(ps[0].condition, env, st);
      DrawsKeepHot(st, Eval(ps[0].condition, env, st).st, hot);
      PreconditionsUnique(ps[1..], cx, env, Eval(ps[0].condition, env, st).st, hot);
    }
  }

  // ----- attempts ---------------------------------------------------------------------------------

  predicate RepeatFreeBucket(bucket: seq<Arc>, cx: Context, hot: set<nat>) {
    forall k | 0 <= k < |bucket| :: RepeatFreeTransition(bucket[k].transition, cx, hot)
  }

  ghost predicate CleanOutcome(r: Result<Outcome>, cx: Context, hot: set<nat>, enable: bool) {
    match r
    case Ok(o) => CleanIn(cx, o.env, o.st, hot) && EnablesOnly(enable, o.st, hot)
    case Fail(f) => !f.DuplicateKey?
  }

  lemma ExecuteUnique(arc: Arc, enable: bool, cx: Context, o: Outcome, hot: set<nat>)
    requires ReadyTransition(arc.transition, cx) && RepeatFreeTransition(arc.transition, cx, hot) && cx.Usable()
    requires Conforms(o.env) && UniqueEnv(o.env) && SameTypes(cx.env, o.env) && EnablesOnly(enable, o.st, hot)
    ensures CleanOutcome(ExecuteTransition(arc, enable, o), cx, hot, enable)
  {
    hide AcceptedStatement, GuardedStatement, RepeatFreeStatement, ExecAll, Conforms, UniqueEnv;
    hide SameTypes, Check, Guarded;
    hide HotOnly, Weighted;
    var st := o.st.(enabled := enable);
    SwitchedClean(cx, o.env, o.st, hot, enable);
    StatementsUnique(arc.transition.statements, cx, o.env, st, hot);
    StatementsDraw(arc.transition.statements, cx, o.env, st);
    var r := ExecAll(arc.transition.statements, o.env, st);
    if r.Ok? {
      DrawsKeepWeights(st, r.value.st);
      WeightedStays(st, r.value.st, hot);
    }
  }

  lemma StatementsDraw(ss: seq<Statement>, cx: Context, env: Env, st: Fuzz)
    requires forall i | 0 <= i < |ss| :: ReadyStatement(ss[i], cx)
    requires cx.Usable() && Conforms(env) && SameTypes(cx.env, env)
    ensures ExecAll(ss, env, st).Ok? ==> OnlyDraws(st, ExecAll(ss, env, st).value.st)
  {
    hide ReadyStatement, TameStatement, Conforms, SameTypes, ExecAll;
    forall i | 0 <= i < |ss| ensures TameStatement(ss[i], cx.env, UNTYPABLE) { AlwaysTameStatement(ss[i], cx.env); }
    StatementsSound(ss, cx, env, st, UNTYPABLE);
  }

  lemma ReportUnique(arc: Arc, cx: Context, o: Outcome, hot: set<nat>, enable: bool)
    requires ReadyTransition(arc.transition, cx) && RepeatFreeTransition(arc.transition, cx, hot)
    requires CleanIn(cx, o.env, o.st, hot) && EnablesOnly(enable, o.st, hot)
    ensures CleanOutcome(ReportFailure(arc, o), cx, hot, enable)
  {
    hide AcceptedStatement, GuardedStatement, RepeatFreeStatement, CheckPreconditions, Conforms, UniqueEnv, SameTypes;
    hide Check, Guarded, Parsed, RepeatFree;
    var ps := arc.transition.preconditions;
    PreconditionsUnique(ps, cx, o.env, o.st, hot);
    if CheckPreconditions(ps, o.env, o.st).Ok? {
      CheckingOnlyDraws(ps, o.env, o.st);
      DrawnClean(cx, o.env, o.st, hot, enable, CheckPreconditions(ps, o.env, o.st).value.st);
    }
  }

  lemma ClassifyUnique(a: Attempt, k: nat, cx: Context, st: Fuzz, hot: set<nat>)
    requires k < |a.bucket| && ReadyTransition(a.bucket[k].transition, cx)
    requires RepeatFreeTransition(a.bucket[k].transition, cx, hot) && CleanIn(cx, a.env, st, hot)
    ensures Classify(a, k, st) != Fail(DuplicateKey)
    ensures Classify(a, k, st).Ok? ==> CleanIn(cx, a.env, Classify(a, k, st).value.st, hot)
  {
    hide AcceptedStatement, GuardedStatement, RepeatFreeStatement, CheckPreconditions, Conforms, UniqueEnv, SameTypes;
    hide Check, Guarded, Parsed, RepeatFree;
    PreconditionsUnique(a.bucket[k].transition.preconditions, cx, a.env, st, hot);
    if Classify(a, k, st).Ok? {
      ClassifyOnlyDraws(a, k, st);
      DrawsKeepHot(st, Classify(a, k, st).value.st, hot);
    }
  }

  lemma {:induction false} VisitUnique(a: Attempt, offset: nat, i: nat, cx: Context, st: Fuzz, hot: set<nat>)
    requires i <= |a.bucket| && ReadyBucket(a.bucket, cx) && RepeatFreeBucket(a.bucket, cx, hot)
    requires CleanIn(cx, a.env, st, hot)
    ensures Visit(a, offset, i, st) != Fail(DuplicateKey)
    ensures Visit(a, offset, i, st).Ok? ==> CleanIn(cx, a.env, Visit(a, offset, i, st).value.st, hot)
    decreases |a.bucket| - i
  {
    hide Classify, At, ReadyTransition, RepeatFreeTransition, CleanIn;
    if i < |a.bucket| {
      var k := At(|a.bucket|, offset, i);
      ClassifyUnique(a, k, cx, st, hot);
      var c := Classify(a, k, st);
      if c.Ok? { VisitUnique(a, offset, i + 1, cx, c.value.st, hot); }
    }
  }

  lemma ConcludeUnique(a: Attempt, offset: nat, f: Fallbacks, cx: Context, st: Fuzz, hot: set<nat>)
    requires a.bucket != [] && ReadyBucket(a.bucket, cx) && RepeatFreeBucket(a.bucket, cx, hot) && cx.Usable()
    requires CleanIn(cx, a.env, st, hot) && EnablesOnly(a.enable, st, hot)
    ensures Conclude(a, offset, f, st) != Fail(DuplicateKey)
    ensures Conclude(a, offset, f, st).Ok? ==>
      CleanOutcome(Ok(Conclude(a, offset, f, st).value.outcome), cx, hot, a.enable)
  {
    hide ExecuteTransition, ReportFailure, At, ReadyTransition, RepeatFreeTransition, Conforms;
    hide UniqueEnv, SameTypes, HotOnly;
    hide Weighted;
    var n := |a.bucket|;
    var start := Outcome(a.state, a.env, st, []);
    var ran :=
      if f.chosen.Some? then ExecuteTransition(a.bucket[At(n, offset, f.chosen.value)], a.enable, start) else Ok(start);
    if f.chosen.Some? { ExecuteUnique(a.bucket[At(n, offset, f.chosen.value)], a.enable, cx, start, hot); }
    if ran.Ok? {
      var reported :=
        if f.failure.Some? then ReportFailure(a.bucket[At(n, offset, f.failure.value)], ran.value) else ran;
      if f.failure.Some? { ReportUnique(a.bucket[At(n, offset, f.failure.value)], cx, ran.value, hot, a.enable); }
      if reported.Ok? && f.candidate.Some? {
        ExecuteUnique(a.bucket[At(n, offset, f.candidate.value)], a.enable, cx, reported.value, hot);
      }
    }
  }

  lemma AttemptUnique(a: Attempt, cx: Context, st: Fuzz, hot: set<nat>)
    requires ReadyBucket(a.bucket, cx) && RepeatFreeBucket(a.bucket, cx, hot) && cx.Usable()
    requires CleanIn(cx, a.env, st, hot) && EnablesOnly(a.enable, st, hot)
    ensures FindAndExecute(a, st) != Fail(DuplicateKey)
    ensures FindAndExecute(a, st).Ok? ==> CleanOutcome(Ok(FindAndExecute(a, st).value.outcome), cx, hot, a.enable)
  {
    hide Visit, SettleBy, Conclude, ReadyBucket, RepeatFreeBucket, CleanIn, EnablesOnly, OnlyDraws;
    if a.bucket != [] {
      var offset := st.Range(0, |a.bucket|);
      Draws(st);
      DrawnClean(cx, a.env, st, hot, a.enable, st.Advance());
      VisitUnique(a, offset, 0, cx, st.Advance(), hot);
      var v := Visit(a, offset, 0, st.Advance());
      if v.Ok? {
        VisitMeans(a, offset, 0, st.Advance());
        DrawnClean(cx, a.env, st.Advance(), hot, a.enable, v.value.st);
        ConcludeUnique(a, offset, SettleBy(a.rule, v.value.classes), cx, v.value.st, hot);
      }
    }
  }

  lemma Draws(st: Fuzz)
    ensures OnlyDraws(st, st.Advance())
  {
  }

  // ----- steps and runs ---------------------------------------------------------------------------

  predicate RepeatFreeProgram(p: Program, hot: set<nat>) {
    && UniqueEnv(p.initial)
    && forall k | 0 <= k < |p.arcs| :: var cx := ContextFor(p, p.arcs[k].transition.trigger);
         cx.Some? ==> RepeatFreeTransition(p.arcs[k].transition, cx.value, hot)
  }

  /** An event that brings in no repeated keys. */
  predicate UniqueEvent(e: Event) {
    match e.action
    case Call(_, _, params) => UniqueItems(params)
    case Set(_, v) => UniqueValue(v)
    case Timeout => true
    case Restart => true
  }

  ghost predicate UniqueConfig(c: Config, hot: set<nat>) {
    UniqueEnv(c.env) && HotOnly(c.fuzz, hot)
  }

  ghost predicate UniqueStepped(r: Result<Stepped>, hot: set<nat>) {
    match r
    case Ok(s) => UniqueConfig(s.config, hot)
    case Fail(f) => !f.DuplicateKey?
  }

  lemma BucketRepeatFree(p: Program, trigger: Trigger, hot: set<nat>)
    requires RepeatFreeProgram(p, hot) && ContextFor(p, trigger).Some?
    ensures RepeatFreeBucket(Bucket(p.arcs, trigger), ContextFor(p, trigger).value, hot)
  {
    hide RepeatFreeTransition, ContextFor, UniqueEnv;
    var bucket := Bucket(p.arcs, trigger);
    BucketMeans(p.arcs, trigger);
    forall k | 0 <= k < |bucket| ensures RepeatFreeTransition(bucket[k].transition, ContextFor(p, trigger).value, hot) {
      assert bucket[k] in p.arcs;
      var j :| 0 <= j < |p.arcs| && p.arcs[j] == bucket[k];
    }
  }

  /** An attempt in a context of the program, from a store bound for it. */
  lemma TriggeredUnique(p: Program, trigger: Trigger, cx: Context, a: Attempt, st: Fuzz, hot: set<nat>)
    requires ReadyProgram(p) && RepeatFreeProgram(p, hot) && ContextFor(p, trigger) == Some(cx)
    requires a.bucket == Bucket(p.arcs, trigger) && EnablesOnly(a.enable, st, hot) && HotOnly(st, hot)
    requires Conforms(a.env) && SameTypes(cx.env, a.env) && UniqueEnv(a.env)
    ensures FindAndExecute(a, st) != Fail(DuplicateKey)
    ensures FindAndExecute(a, st).Ok? ==>
      var o := FindAndExecute(a, st).value.outcome; UniqueEnv(o.env) && HotOnly(o.st, hot)
  {
    hide FindAndExecute, ReadyProgram, RepeatFreeProgram, Conforms, SameTypes, UniqueEnv, HotOnly, Weighted;
    if a.bucket != [] { BucketReady(p, trigger); }
    BucketRepeatFree(p, trigger, hot);
    ReadyIsAccepted(p);
    ContextUsable(p, trigger);
    AttemptUnique(a, cx, st, hot);
  }

  lemma ReadyIsAccepted(p: Program)
    requires ReadyProgram(p)
    ensures AcceptedProgram(p)
  {
  }

  lemma {:induction false} BindUnique(env: Env, args: seq<Arg>, vs: seq<Value>)
    requires UniqueEnv(env) && UniqueItems(vs)
    ensures UniqueStore(BindArgs(env, args, vs))
    decreases args
  {
    hide UniqueValue, SetVariable;
    if args != [] && vs != [] {
      var declared := DeclareVariable(env, Local, args[0].name, args[0].ty);
      if declared.Ok? {
        SetVariableUnique(declared.value, Local, args[0].name, vs[0]);
        var bound := SetVariable(declared.value, Local, args[0].name, vs[0]);
        if bound.Ok? { BindUnique(bound.value, args[1..], vs[1..]); }
      }
    }
  }

  lemma {:induction false} UnbindUnique(env: Env, args: seq<Arg>, vs: seq<Value>)
    requires UniqueEnv(env)
    ensures UniqueEnv(UnbindArgs(env, args, vs))
    decreases args
  {
    if args != [] && vs != [] { UnbindUnique(RemoveVariable(env, Local, args[0].name), args[1..], vs[1..]); }
  }

  lemma DefaultUnique(c: Config, out: seq<Output>, name: string, v: Value, hot: set<nat>)
    requires UniqueConfig(c, hot) && UniqueValue(v)
    ensures UniqueStepped(SetDefault(c, out, name, v), hot)
  {
    SetVariableUnique(c.env, Object, name, v);
  }

  lemma CallUnique(p: Program, st0: Fuzz, c: Config, e: Event, hot: set<nat>)
    requires ReadyProgram(p) && RepeatFreeProgram(p, hot) && Invariant(p, st0, c) && UniqueConfig(c, hot)
    requires e.action.Call? && EventFits(p, e) && UniqueEvent(e) && EnablesOnly(e.enable, c.fuzz, hot)
    ensures var call := e.action;
      UniqueStepped(CallMethod(p, c, call.interfaceName, call.methodName, call.params, e.enable, e.permits), hot)
  {
    hide FindAndExecute, Conforms, AcceptedTransition, GuardedTransition, DBusType, HasType, SameTableTypes;
    hide RepeatFreeProgram, UniqueValue, UniqueEnv, HotOnly, Weighted;
    var m, params := e.action.methodName, e.action.params;
    var bucket := Bucket(p.arcs, MethodCall(m));
    var i := FindInterface(p.interfaces, e.action.interfaceName);
    if bucket != [] && i.Some? && m in i.value.methods {
      var args := i.value.methods[m].inArgs;
      BucketReady(p, MethodCall(m));
      var cx := ContextFor(p, MethodCall(m)).value;
      DeclaredMethodFound(p.interfaces, m);
      BindSucceeds(c.env, args, params);
      BindUnique(c.env, args, params);
      var bound := BindArgs(c.env, args, params).value;
      BoundTypes(p, c, cx, args, bound);
      var a := Attempt(bucket, c.state, bound, e.enable, e.permits, p.rule);
      TriggeredUnique(p, MethodCall(m), cx, a, c.fuzz, hot);
      var r := FindAndExecute(a, c.fuzz);
      if r.Ok? { UnbindUnique(r.value.outcome.env, args, params); }
    }
  }

  lemma SetPropertyUnique(p: Program, st0: Fuzz, c: Config, e: Event, hot: set<nat>)
    requires ReadyProgram(p) && RepeatFreeProgram(p, hot) && Invariant(p, st0, c) && UniqueConfig(c, hot)
    requires e.action.Set? && EventFits(p, e) && UniqueEvent(e) && EnablesOnly(e.enable, c.fuzz, hot)
    ensures UniqueStepped(SetProperty(p, c, e.action.propertyName, e.action.value, e.enable, e.permits), hot)
  {
    hide FindAndExecute, Conforms, AcceptedTransition, GuardedTransition, DBusType, SameTableTypes, SetDefault;
    hide WellFormed, TypeOf, RepeatFreeProgram, UniqueValue, UniqueEnv, HotOnly, Weighted;
    var name, v := e.action.propertyName, e.action.value;
    var bucket := Bucket(p.arcs, PropertySet(name));
    DeclaredPropertyFound(p.interfaces, name);
    if bucket == [] {
      DefaultUnique(c, [], name, v, hot);
    } else {
      BucketReady(p, PropertySet(name));
      var cx := ContextFor(p, PropertySet(name)).value;
      var args := [Arg("value", TypeOf(v))];
      BindSucceeds(c.env, args, [v]);
      BindUnique(c.env, args, [v]);
      var bound := BindArgs(c.env, args, [v]).value;
      assert args[1..] == [] && ArgTable([]) == map[];
      BoundTypes(p, c, cx, args, bound);
      var a := Attempt(bucket, c.state, bound, e.enable, e.permits, p.rule);
      TriggeredUnique(p, PropertySet(name), cx, a, c.fuzz, hot);
      var r := FindAndExecute(a, c.fuzz);
      if r.Ok? {
        var o := r.value.outcome;
        ValueUnbound(o.env);
        DefaultUnique(Config(o.state, RemoveVariable(o.env, Local, "value"), o.st), o.out, name, v, hot);
      }
    }
  }

  lemma ValueUnbound(env: Env)
    requires UniqueEnv(env)
    ensures UniqueEnv(RemoveVariable(env, Local, "value"))
  {
  }

  lemma TimeoutUnique(p: Program, st0: Fuzz, c: Config, enable: bool, permits: nat -> bool, hot: set<nat>)
    requires ReadyProgram(p) && RepeatFreeProgram(p, hot) && Invariant(p, st0, c) && UniqueConfig(c, hot)
    requires EnablesOnly(enable, c.fuzz, hot)
    ensures UniqueStepped(MakeArbitraryTransition(p, c, enable, permits), hot)
  {
    hide FindAndExecute, Conforms, AcceptedTransition, GuardedTransition, RepeatFreeProgram;
    hide UniqueEnv, HotOnly, Weighted;
    var a := Attempt(Bucket(p.arcs, Arbitrary), c.state, c.env, enable, permits, p.rule);
    TriggeredUnique(p, Arbitrary, ContextFor(p, Arbitrary).value, a, c.fuzz, hot);
  }

  lemma RetapedHot(st: Fuzz, tape: nat -> Draw, hot: set<nat>)
    ensures HotOnly(st, hot) ==> HotOnly(st.(tape := tape, pos := 0), hot)
    ensures Weighted(st, hot) ==> Weighted(st.(tape := tape, pos := 0), hot)
  {
    var st' := st.(tape := tape, pos := 0);
    forall id: nat ensures st'.Weight(id) == st.Weight(id) && (st'.Fuzzes(id) <==> st.Fuzzes(id)) {}
  }

  lemma StepUnique(p: Program, st0: Fuzz, c: Config, e: Event, hot: set<nat>)
    requires ReadyProgram(p) && RepeatFreeProgram(p, hot) && Invariant(p, st0, c) && UniqueConfig(c, hot)
    requires EventFits(p, e) && UniqueEvent(e) && EnablesOnly(e.enable, c.fuzz, hot)
    ensures UniqueStepped(Step(p, c, e), hot)
  {
    hide CallMethod, SetProperty, MakeArbitraryTransition, Conforms, ReadyProgram, EventFits, UniqueEnv;
    var c' := c.(fuzz := c.fuzz.(tape := e.tape, pos := 0));
    TapeKeepsWeights(st0, c.fuzz, e.tape);
    RetapedHot(c.fuzz, e.tape, hot);
    assert Invariant(p, st0, c');
    match e.action
    case Call(_, _, _) => CallUnique(p, st0, c', e, hot);
    case Set(_, _) => SetPropertyUnique(p, st0, c', e, hot);
    case Timeout => TimeoutUnique(p, st0, c', e.enable, e.permits, hot);
    case Restart =>
  }

  lemma InvariantWeights(p: Program, st0: Fuzz, c: Config)
    requires Invariant(p, st0, c)
    ensures SameWeights(st0, c.fuzz)
  {
  }

  ghost predicate UniqueRun(r: Result<Config>, hot: set<nat>) {
    match r
    case Ok(c) => UniqueConfig(c, hot)
    case Fail(f) => !f.DuplicateKey?
  }

  /** In no run does a variable come to hold a dictionary with a repeated key, or dictSet() fail. */
  lemma {:induction false} RunUnique(p: Program, st0: Fuzz, es: seq<Event>, hot: set<nat>)
    requires ReadyProgram(p) && RepeatFreeProgram(p, hot) && HotOnly(st0, hot)
    requires forall i | 0 <= i < |es| ::
      EventFits(p, es[i]) && UniqueEvent(es[i]) && EnablesOnly(es[i].enable, st0, hot)
    ensures UniqueRun(Run(p, Start(p, st0), es), hot)
    decreases |es|
  {
    hide Invariant, ReadyProgram, EventFits, UniqueEvent, Step, UniqueEnv, HotOnly, Weighted;
    if es != [] {
      var init := es[..|es| - 1];
      RunUnique(p, st0, init, hot);
      AlwaysTameProgram(p);
      RunKeepsInvariant(p, st0, init, UNTYPABLE);
      var before := Run(p, Start(p, st0), init);
      if before.Ok? {
        InvariantWeights(p, st0, before.value);
        WeightedStays(st0, before.value.fuzz, hot);
        StepUnique(p, st0, before.value, es[|es| - 1], hot);
      }
    }
  }
}
