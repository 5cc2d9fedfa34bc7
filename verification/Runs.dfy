/**
 What holds in every configuration of every run: the local scope is empty between steps, every variable
 conforms to its type, names, types and weights stay as they were, and steps answer as they should.
 */
module Runs {
  import opened Results
  import opened VariantTypes
  import opened Language
  import opened Evaluator
  import opened Statements
  import opened Transitions
  import opened Scanning
  import opened Attempts
  import opened DoubleFallback
  import opened Assignment
  import opened Machines

  /** The invariant between steps. */
  ghost predicate Invariant(p: Program, st: Fuzz, c: Config) {
    && c.state < p.states
    && c.env.locals == map[] && Conforms(c.env) && SameTypes(p.initial, c.env)
    && SameWeights(st, c.fuzz)
  }

  /** The parameters of a call are those of the method, declared with the same ones where the machine was checked. */
  predicate EventFits(p: Program, e: Event) {
    match e.action
    case Call(i, m, params) =>
      var found := FindInterface(p.interfaces, i);
      found.Some? && m in found.value.methods ==>
        && DeclaredMethod(p.interfaces, m).Some?
        && DeclaredMethod(p.interfaces, m).value.inArgs == found.value.methods[m].inArgs
        && ParamsFit(found.value.methods[m].inArgs, params)
    case Set(name, v) =>
      DeclaredProperty(p.interfaces, name).Some? && HasType(v, DeclaredProperty(p.interfaces, name).value)
    case Timeout => true
    case Restart => true
  }

  predicate ParamsFit(args: seq<Arg>, vs: seq<Value>) {
    |args| == |vs| && forall i | 0 <= i < |args| :: HasType(vs[i], args[i].ty)
  }

  // ----- the parameters of a call -----------------------------------------------------------------

  ghost predicate Fresh(env: Env, args: seq<Arg>) {
    forall i | 0 <= i < |args| :: args[i].name !in env.locals
  }

  /** Every parameter is a local variable with its value, and other local variables are as they were. */
  predicate BoundTo(env: Env, env': Env, args: seq<Arg>, vs: seq<Value>) {
    && |args| == |vs|
    && (forall x | x in env.locals :: x in env'.locals && env'.locals[x] == env.locals[x])
    && forall i | 0 <= i < |args| ::
         args[i].name in env'.locals && env'.locals[args[i].name] == Variable(args[i].ty, Some(vs[i]))
  }

  /** Binding distinct parameters to values of their types succeeds, and adds just those local variables. */
  lemma {:induction false} BindSucceeds(env: Env, args: seq<Arg>, vs: seq<Value>)
    requires Conforms(env) && DistinctNames(args) && Fresh(env, args) && ParamsFit(args, vs)
    requires forall i | 0 <= i < |args| :: DBusType(args[i].ty)
    ensures BindArgs(env, args, vs).Ok?
    ensures var env' := BindArgs(env, args, vs).value;
      && Conforms(env') && env'.objects == env.objects
      && SameTableTypes(env.locals + ArgTable(args), env'.locals)
      && BoundTo(env, env', args, vs)
    decreases args
  {
    hide DBusType, HasType, Conforms, SameTableTypes, BoundTo;
    if args == [] {
      NothingBound(env);
      assert env.locals + map[] == env.locals;
      SameTableReflexive(env.locals);
    } else {
      BindOne(env, args[0], vs[0]);
      var table := env.locals[args[0].name := Variable(args[0].ty, Some(vs[0]))];
      var env1 := env.(locals := table);
      forall i | 0 <= i < |args[1..]| ensures args[1..][i].name !in table {
        assert args[1..][i] == args[i + 1];
      }
      BindSucceeds(env1, args[1..], vs[1..]);
      assert BindArgs(env, args, vs) == BindArgs(env1, args[1..], vs[1..]);
      ArgTableStep(env.locals, args, table, BindArgs(env, args, vs).value.locals);
      BoundStep(env, env1, BindArgs(env, args, vs).value, args, vs);
    }
  }

  lemma NothingBound(env: Env)
    ensures BoundTo(env, env, [], [])
  {
  }

  lemma BoundStep(env: Env, env1: Env, env': Env, args: seq<Arg>, vs: seq<Value>)
    requires args != [] && |args| == |vs| && args[0].name !in env.locals
    requires env1.locals == env.locals[args[0].name := Variable(args[0].ty, Some(vs[0]))]
    requires BoundTo(env1, env', args[1..], vs[1..])
    ensures BoundTo(env, env', args, vs)
  {
    forall i | 0 < i < |args|
      ensures args[i].name in env'.locals && env'.locals[args[i].name] == Variable(args[i].ty, Some(vs[i]))
    {
      assert args[i] == args[1..][i - 1] && vs[i] == vs[1..][i - 1];
    }
    assert args[0].name in env1.locals;
  }

  lemma SameTableReflexive(m: map<string, Variable>)
    ensures SameTableTypes(m, m)
  {
  }

  lemma ArgTableStep(locals: map<string, Variable>, args: seq<Arg>, table: map<string, Variable>,
                     locals': map<string, Variable>)
    requires args != [] && DistinctNames(args) && table.Keys == locals.Keys + {args[0].name} && args[0].name !in locals
    requires forall x | x in locals :: table[x] == locals[x]
    requires table[args[0].name].ty == args[0].ty
    requires SameTableTypes(table + ArgTable(args[1..]), locals')
    ensures SameTableTypes(locals + ArgTable(args), locals')
  {
    hide SameTableTypes;
    ArgTableKeys(args[1..]);
    var rest := ArgTable(args[1..]);
    assert args[0].name !in rest;
    MergeStep(locals, rest, args[0].name, args[0].ty, table);
    SameTablesTransitive(locals + ArgTable(args), table + rest, locals');
  }

  lemma MergeStep(locals: map<string, Variable>, rest: map<string, Variable>, name: string, ty: Ty,
                  table: map<string, Variable>)
    requires name !in locals && name !in rest && table.Keys == locals.Keys + {name} && table[name].ty == ty
    requires forall x | x in locals :: table[x] == locals[x]
    ensures SameTableTypes(locals + rest[name := Variable(ty, None)], table + rest)
  {
    assert (locals + rest[name := Variable(ty, None)]).Keys == (table + rest).Keys;
  }

  lemma SameTablesTransitive(a: map<string, Variable>, b: map<string, Variable>, c: map<string, Variable>)
    requires SameTableTypes(a, b) && SameTableTypes(b, c)
    ensures SameTableTypes(a, c)
  {
  }

  lemma BindOne(env: Env, arg: Arg, v: Value)
    requires Conforms(env) && arg.name !in env.locals && DBusType(arg.ty) && HasType(v, arg.ty)
    ensures DeclareVariable(env, Local, arg.name, arg.ty).Ok?
    ensures var env' := env.(locals := env.locals[arg.name := Variable(arg.ty, Some(v))]);
      && SetVariable(DeclareVariable(env, Local, arg.name, arg.ty).value, Local, arg.name, v) == Ok(env')
      && Conforms(env')
  {
    hide WellFormed, TypeOf, Definite, BasicKeys, DBusType, Subtype;
    DBusTypeIsDefinite(arg.ty);
    SubtypeReflexive(arg.ty);
    var declared := DeclareVariable(env, Local, arg.name, arg.ty).value;
    assert declared.locals[arg.name := Variable(arg.ty, Some(v))] == env.locals[arg.name := Variable(arg.ty, Some(v))];
  }

  /** Unbinding removes the parameters and nothing else. */
  lemma {:induction false} UnbindRemoves(env: Env, args: seq<Arg>, vs: seq<Value>)
    requires |args| == |vs|
    ensures UnbindArgs(env, args, vs) == Env(env.locals - ArgTable(args).Keys, env.objects)
    decreases args
  {
    if args == [] {
      assert env.locals - {} == env.locals;
    } else {
      var env1 := RemoveVariable(env, Local, args[0].name);
      UnbindRemoves(env1, args[1..], vs[1..]);
      assert ArgTable(args).Keys == ArgTable(args[1..]).Keys + {args[0].name};
      assert env1.locals - ArgTable(args[1..]).Keys == env.locals - ArgTable(args).Keys;
    }
  }

  // ----- the faults of a program ------------------------------------------------------------------

  /** Of the faults types cannot rule out, no transition has a source of any but those in fs. */
  predicate TameProgram(p: Program, fs: set<Fault>) {
    forall k | 0 <= k < |p.arcs| :: var cx := ContextFor(p, p.arcs[k].transition.trigger);
      cx.Some? ==> TameTransition(p.arcs[k].transition, cx.value, fs)
  }

  lemma AlwaysTameProgram(p: Program)
    ensures TameProgram(p, UNTYPABLE)
  {
    hide TameTransition, ContextFor;
    forall k | 0 <= k < |p.arcs| && ContextFor(p, p.arcs[k].transition.trigger).Some?
      ensures TameTransition(p.arcs[k].transition, ContextFor(p, p.arcs[k].transition.trigger).value, UNTYPABLE)
    {
      AlwaysTameTransition(p.arcs[k].transition, ContextFor(p, p.arcs[k].transition.trigger).value);
    }
  }

  /** Some scan could record both fallbacks. */
  predicate MayClash(p: Program) {
    p.rule.AsWritten? && !OneKindOfFallback(p.arcs)
  }

  /** The ways a step of an accepted program can still go wrong. */
  predicate StepFault(p: Program, fs: set<Fault>, f: Fault) {
    (Untypable(f) && f in fs) || (f.BothFallbacks? && MayClash(p))
  }

  lemma BucketIsTame(p: Program, trigger: Trigger, fs: set<Fault>)
    requires TameProgram(p, fs) && ContextFor(p, trigger).Some?
    ensures TameBucket(Bucket(p.arcs, trigger), ContextFor(p, trigger).value, fs)
  {
    hide TameTransition, ContextFor;
    var bucket := Bucket(p.arcs, trigger);
    BucketMeans(p.arcs, trigger);
    forall k | 0 <= k < |bucket| ensures TameTransition(bucket[k].transition, ContextFor(p, trigger).value, fs) {
      assert bucket[k] in p.arcs;
      var j :| 0 <= j < |p.arcs| && p.arcs[j] == bucket[k];
    }
  }

  lemma BucketHasOneKind(arcs: seq<Arc>, trigger: Trigger)
    requires OneKindOfFallback(arcs)
    ensures var b := Bucket(arcs, trigger);
      OneKindOfFallback(b) && forall k | 0 <= k < |b| :: b[k].transition.trigger == trigger
  {
    hide ThrowingPrecondition;
    BucketMeans(arcs, trigger);
    var b := Bucket(arcs, trigger);
    forall k | 0 <= k < |b| ensures b[k].transition.trigger == trigger { assert b[k] in b; }
    forall k, l | 0 <= k < |b| && 0 <= l < |b| && b[k].from == b[l].from
      ensures !(b[k].transition.ContainsThrow() && ThrowingPrecondition(b[l].transition))
    {
      assert b[k] in arcs && b[l] in arcs;
      var k' :| 0 <= k' < |arcs| && arcs[k'] == b[k];
      var l' :| 0 <= l' < |arcs| && arcs[l'] == b[l];
    }
  }

  // ----- one attempt ------------------------------------------------------------------------------

  /** Without clashing fallbacks an attempt never fails its closing assertion. */
  lemma AttemptFaults(p: Program, trigger: Trigger, cx: Context, a: Attempt, st: Fuzz, fs: set<Fault>)
    requires ReadyBucket(a.bucket, cx) && TameBucket(a.bucket, cx, fs) && cx.Usable()
    requires a.bucket == Bucket(p.arcs, trigger) && a.rule == p.rule
    requires Conforms(a.env) && SameTypes(cx.env, a.env)
    ensures FindAndExecute(a, st).Fail? ==> StepFault(p, fs, FindAndExecute(a, st).fault)
  {
    hide FindAndExecute, ReadyBucket, TameBucket, Conforms, SameTypes, BothRecorded, OneKindOfFallback, Bucket;
    AttemptSound(a, cx, st, fs);
    AttemptFailsIff(a, cx, st, fs);
    if a.bucket != [] && OneKindOfFallback(p.arcs) {
      BucketHasOneKind(p.arcs, trigger);
      NotBothRecorded(a, st.Range(0, |a.bucket|), st.Advance());
    }
  }

  ghost predicate AttemptKept(r: Result<Attempted>, p: Program, st0: Fuzz, cx: Context, env: Env, fs: set<Fault>) {
    match r
    case Ok(v) =>
      && v.outcome.state < p.states
      && SameTypes(env, v.outcome.env)
      && Invariant(p, st0, Config(v.outcome.state, v.outcome.env.(locals := map[]), v.outcome.st))
      && forall i | 0 <= i < |v.outcome.out| :: TypedOutput(v.outcome.out[i], cx)
    case Fail(f) => StepFault(p, fs, f)
  }

  /** The store after an attempt, with its local scope cleared, satisfies the invariant again. */
  lemma AttemptKeeps(p: Program, trigger: Trigger, cx: Context, a: Attempt, st0: Fuzz, st: Fuzz, fs: set<Fault>)
    requires ReadyProgram(p) && TameProgram(p, fs) && ContextFor(p, trigger) == Some(cx)
    requires a.bucket == Bucket(p.arcs, trigger) && a.rule == p.rule
    requires a.state < p.states && Conforms(a.env) && SameTypes(cx.env, a.env) && SameWeights(st0, st)
    ensures AttemptKept(FindAndExecute(a, st), p, st0, cx, a.env, fs)
  {
    hide FindAndExecute, TypedOutput, TameBucket, TameProgram, StepFault, Conforms;
    if a.bucket != [] { BucketReady(p, trigger); }
    BucketIsTame(p, trigger, fs);
    ContextUsable(p, trigger);
    AttemptSound(a, cx, st, fs);
    AttemptFaults(p, trigger, cx, a, st, fs);
    var r := FindAndExecute(a, st);
    if r.Ok? {
      AttemptState(p, trigger, a, st);
      SameWeightsTransitive(st0, st, r.value.outcome.st);
      ClearLocals(p, cx, a.env, r.value.outcome.env) by { assert cx.env.objects == p.initial.objects; }
    }
  }

  lemma ClearLocals(p: Program, cx: Context, env: Env, env': Env)
    requires cx.env.objects == p.initial.objects && p.initial.locals == map[]
    requires SameTypes(cx.env, env) && SameTypes(env, env') && Conforms(env')
    ensures Conforms(env'.(locals := map[])) && SameTypes(p.initial, env'.(locals := map[]))
  {
  }

  lemma ContextUsable(p: Program, trigger: Trigger)
    requires AcceptedProgram(p) && ContextFor(p, trigger).Some?
    ensures ContextFor(p, trigger).value.Usable()
  {
    hide ContextFor, Conforms, AcceptedTransition, IntrospectedInterface;
    IntrospectedUsable(p, trigger);
  }

  lemma IntrospectedUsable(p: Program, trigger: Trigger)
    requires forall i | 0 <= i < |p.interfaces| :: IntrospectedInterface(p.interfaces[i])
    requires ContextFor(p, trigger).Some?
    ensures ContextFor(p, trigger).value.Usable()
  {
    hide DBusType;
    SignalsUsable(p.interfaces);
    if trigger.MethodCall? { DeclaredMethodFound(p.interfaces, trigger.name); }
    NoTypesUsable();
  }

  lemma NoTypesUsable()
    ensures DBusType(TTuple([]))
  {
  }

  lemma {:induction false} SignalsUsable(interfaces: seq<Interface>)
    requires forall i | 0 <= i < |interfaces| :: IntrospectedInterface(interfaces[i])
    ensures forall s | s in DeclaredSignals(interfaces) :: DBusType(TTuple(DeclaredSignals(interfaces)[s]))
  {
    hide DBusType;
    if interfaces != [] { SignalsUsable(interfaces[1..]); }
  }

  lemma {:induction false} DeclaredMethodFound(interfaces: seq<Interface>, name: string)
    requires DeclaredMethod(interfaces, name).Some?
    ensures exists i | 0 <= i < |interfaces| ::
      name in interfaces[i].methods && interfaces[i].methods[name] == DeclaredMethod(interfaces, name).value
  {
    if name !in interfaces[0].methods {
      DeclaredMethodFound(interfaces[1..], name);
      var i :| 0 <= i < |interfaces[1..]| && name in interfaces[1..][i].methods
        && interfaces[1..][i].methods[name] == DeclaredMethod(interfaces, name).value;
      assert interfaces[1..][i] == interfaces[i + 1];
    }
  }

  lemma {:induction false} DeclaredPropertyFound(interfaces: seq<Interface>, name: string)
    requires DeclaredProperty(interfaces, name).Some?
    ensures exists i | 0 <= i < |interfaces| ::
      name in interfaces[i].properties && interfaces[i].properties[name] == DeclaredProperty(interfaces, name).value
  {
    if name !in interfaces[0].properties {
      DeclaredPropertyFound(interfaces[1..], name);
      var i :| 0 <= i < |interfaces[1..]| && name in interfaces[1..][i].properties
        && interfaces[1..][i].properties[name] == DeclaredProperty(interfaces, name).value;
      assert interfaces[1..][i] == interfaces[i + 1];
    }
  }

  /** An attempt stays in its state or follows a registered transition out of it. */
  lemma AttemptMoves(a: Attempt, st: Fuzz)
    requires FindAndExecute(a, st).Ok?
    ensures var s := FindAndExecute(a, st).value.outcome.state;
      s == a.state || exists k | 0 <= k < |a.bucket| :: MovesAlong(a, k, s)
  {
    hide FindAndExecute, Executed, ExecAll, Reported, SameWeights;
    if a.bucket == [] {
      EmptyAttempt(a, st);
    } else {
      AttemptEffect(a, st);
      if Executed(a, st).Some? {
        ExecutedFromHere(a, st);
        var k, s := Executed(a, st).value, FindAndExecute(a, st).value.outcome.state;
        if s != a.state { assert MovesAlong(a, k, s); }
      }
    }
  }

  predicate MovesAlong(a: Attempt, k: nat, s: nat)
    requires k < |a.bucket|
  {
    a.bucket[k].from == a.state && a.bucket[k].to == s && !a.bucket[k].transition.ContainsThrow()
  }

  lemma AttemptState(p: Program, trigger: Trigger, a: Attempt, st: Fuzz)
    requires AcceptedProgram(p) && a.bucket == Bucket(p.arcs, trigger) && a.state < p.states
    requires FindAndExecute(a, st).Ok?
    ensures FindAndExecute(a, st).value.outcome.state < p.states
  {
    hide FindAndExecute, AcceptedTransition, ContextFor, IntrospectedInterface, Conforms;
    AttemptMoves(a, st);
    BucketMeans(p.arcs, trigger);
    var s := FindAndExecute(a, st).value.outcome.state;
    if s != a.state {
      var k :| 0 <= k < |a.bucket| && MovesAlong(a, k, s);
      assert a.bucket[k] in p.arcs;
    }
  }

  // ----- one step ---------------------------------------------------------------------------------

  ghost predicate KeepsInvariant(r: Result<Stepped>, p: Program, st0: Fuzz, fs: set<Fault>) {
    match r
    case Ok(s) => Invariant(p, st0, s.config)
    case Fail(f) => StepFault(p, fs, f)
  }

  lemma CallKeeps(p: Program, st0: Fuzz, c: Config, e: Event, fs: set<Fault>)
    requires ReadyProgram(p) && TameProgram(p, fs) && Invariant(p, st0, c) && e.action.Call? && EventFits(p, e)
    ensures var call := e.action;
      var r := CallMethod(p, c, call.interfaceName, call.methodName, call.params, e.enable, e.permits);
      KeepsInvariant(r, p, st0, fs)
  {
    hide FindAndExecute, Conforms, AcceptedTransition, GuardedTransition, DBusType, HasType, SameTableTypes;
    hide TameProgram, StepFault;
    var m, params := e.action.methodName, e.action.params;
    var bucket := Bucket(p.arcs, MethodCall(m));
    var i := FindInterface(p.interfaces, e.action.interfaceName);
    if bucket != [] && i.Some? && m in i.value.methods {
      var args := i.value.methods[m].inArgs;
      BucketReady(p, MethodCall(m));
      var cx := ContextFor(p, MethodCall(m)).value;
      DeclaredMethodFound(p.interfaces, m);
      BindSucceeds(c.env, args, params);
      var bound := BindArgs(c.env, args, params).value;
      BoundTypes(p, c, cx, args, bound);
      var a := Attempt(bucket, c.state, bound, e.enable, e.permits, p.rule);
      AttemptKeeps(p, MethodCall(m), cx, a, st0, c.fuzz, fs);
      var r := FindAndExecute(a, c.fuzz);
      if r.Ok? {
        UnbindRemoves(r.value.outcome.env, args, params);
        OnlyParameters(bound, r.value.outcome.env, args);
      }
    }
  }

  lemma BoundTypes(p: Program, c: Config, cx: Context, args: seq<Arg>, bound: Env)
    requires c.env.locals == map[] && SameTypes(p.initial, c.env) && bound.objects == c.env.objects
    requires cx.env == Env(ArgTable(args), p.initial.objects)
    requires SameTableTypes(c.env.locals + ArgTable(args), bound.locals)
    ensures SameTypes(cx.env, bound) && bound.locals.Keys == ArgTable(args).Keys
  {
    assert c.env.locals + ArgTable(args) == ArgTable(args);
  }

  lemma OnlyParameters(bound: Env, env: Env, args: seq<Arg>)
    requires SameTypes(bound, env) && bound.locals.Keys == ArgTable(args).Keys
    ensures env.locals - ArgTable(args).Keys == map[]
  {
  }

  /** The default transition of a property finds its variable and a value of the right type. */
  lemma DefaultKeeps(p: Program, st0: Fuzz, c: Config, out: seq<Output>, name: string, v: Value)
    requires AcceptedProgram(p) && Invariant(p, st0, c)
    requires DeclaredProperty(p.interfaces, name).Some? && HasType(v, DeclaredProperty(p.interfaces, name).value)
    ensures SetDefault(c, out, name, v).Ok? && Invariant(p, st0, SetDefault(c, out, name, v).value.config)
  {
    hide AcceptedTransition, IntrospectedInterface, WellFormed, TypeOf, Subtype, Conforms;
    PropertyVariable(p, c, name, DeclaredProperty(p.interfaces, name).value);
    SubtypeReflexive(TypeOf(v));
    SetVariableConforms(c.env, Object, name, v);
  }

  lemma PropertyVariable(p: Program, c: Config, name: string, t: Ty)
    requires PropertiesHaveVariables(p) && Conforms(c.env) && SameTypes(p.initial, c.env)
    requires DeclaredProperty(p.interfaces, name) == Some(t)
    ensures name in c.env.objects && c.env.objects[name].ty == t && c.env.objects[name].value.Some?
  {
    DeclaredPropertyFound(p.interfaces, name);
  }

  lemma SetKeeps(p: Program, st0: Fuzz, c: Config, e: Event, fs: set<Fault>)
    requires ReadyProgram(p) && TameProgram(p, fs) && Invariant(p, st0, c) && e.action.Set? && EventFits(p, e)
    ensures KeepsInvariant(SetProperty(p, c, e.action.propertyName, e.action.value, e.enable, e.permits), p, st0, fs)
  {
    hide FindAndExecute, Conforms, AcceptedTransition, GuardedTransition, DBusType, SameTableTypes, SetDefault;
    hide TameProgram, StepFault;
    hide WellFormed, TypeOf;
    var name, v := e.action.propertyName, e.action.value;
    var bucket := Bucket(p.arcs, PropertySet(name));
    DeclaredPropertyFound(p.interfaces, name);
    if bucket == [] {
      DefaultKeeps(p, st0, c, [], name, v);
    } else {
      BucketReady(p, PropertySet(name));
      var cx := ContextFor(p, PropertySet(name)).value;
      var args := [Arg("value", TypeOf(v))];
      BindSucceeds(c.env, args, [v]);
      var bound := BindArgs(c.env, args, [v]).value;
      assert args[1..] == [] && ArgTable([]) == map[];
      BoundTypes(p, c, cx, args, bound);
      var a := Attempt(bucket, c.state, bound, e.enable, e.permits, p.rule);
      AttemptKeeps(p, PropertySet(name), cx, a, st0, c.fuzz, fs);
      var r := FindAndExecute(a, c.fuzz);
      if r.Ok? {
        var o := r.value.outcome;
        OnlyParameters(bound, o.env, args);
        assert RemoveVariable(o.env, Local, "value").locals == map[];
        if !r.value.outputted {
          DefaultKeeps(p, st0, Config(o.state, RemoveVariable(o.env, Local, "value"), o.st), o.out, name, v);
        }
      }
    }
  }

  lemma TimeoutKeeps(p: Program, st0: Fuzz, c: Config, enable: bool, permits: nat -> bool, fs: set<Fault>)
    requires ReadyProgram(p) && TameProgram(p, fs) && Invariant(p, st0, c)
    ensures KeepsInvariant(MakeArbitraryTransition(p, c, enable, permits), p, st0, fs)
  {
    hide FindAndExecute, Conforms, AcceptedTransition, GuardedTransition, TameProgram, StepFault;
    var a := Attempt(Bucket(p.arcs, Arbitrary), c.state, c.env, enable, permits, p.rule);
    var cx := ContextFor(p, Arbitrary).value;
    AttemptKeeps(p, Arbitrary, cx, a, st0, c.fuzz, fs);
    var r := FindAndExecute(a, c.fuzz);
    if r.Ok? { assert r.value.outcome.env.locals == map[]; }
  }

  lemma TapeKeepsWeights(st0: Fuzz, st: Fuzz, tape: nat -> Draw)
    requires SameWeights(st0, st)
    ensures SameWeights(st0, st.(tape := tape, pos := 0))
  {
    forall id: nat ensures st.(tape := tape, pos := 0).Weight(id) == st0.Weight(id) {
      assert st.Weight(id) == st0.Weight(id);
    }
  }

  /** Every step keeps the invariant, and the assertions of the variable store never fail. */
  lemma StepKeepsInvariant(p: Program, st0: Fuzz, c: Config, e: Event, fs: set<Fault>)
    requires ReadyProgram(p) && TameProgram(p, fs) && Invariant(p, st0, c) && EventFits(p, e)
    ensures KeepsInvariant(Step(p, c, e), p, st0, fs)
  {
    hide CallMethod, SetProperty, MakeArbitraryTransition, Conforms, ReadyProgram, EventFits, TameProgram, StepFault;
    var c' := c.(fuzz := c.fuzz.(tape := e.tape, pos := 0));
    TapeKeepsWeights(st0, c.fuzz, e.tape);
    assert Invariant(p, st0, c');
    match e.action
    case Call(_, _, _) => CallKeeps(p, st0, c', e, fs);
    case Set(_, _) => SetKeeps(p, st0, c', e, fs);
    case Timeout => TimeoutKeeps(p, st0, c', e.enable, e.permits, fs);
    case Restart => InitialInvariant(p, st0, c'.fuzz);
  }

  lemma InitialInvariant(p: Program, st0: Fuzz, st: Fuzz)
    requires ReadyProgram(p) && SameWeights(st0, st)
    ensures Invariant(p, st0, Config(0, p.initial, st))
  {
  }

  // ----- runs -------------------------------------------------------------------------------------

  ghost predicate RunKept(r: Result<Config>, p: Program, st0: Fuzz, fs: set<Fault>) {
    match r
    case Ok(c) => Invariant(p, st0, c)
    case Fail(f) => StepFault(p, fs, f)
  }

  /**
   The invariant holds after every run. Only faults that types cannot rule out, and that the program has a
   source of, ever stop one, and the assertion on the fallbacks where they may clash.
   */
  lemma {:induction false} RunKeepsInvariant(p: Program, st0: Fuzz, es: seq<Event>, fs: set<Fault>)
    requires ReadyProgram(p) && TameProgram(p, fs) && forall i | 0 <= i < |es| :: EventFits(p, es[i])
    ensures RunKept(Run(p, Start(p, st0), es), p, st0, fs)
    decreases |es|
  {
    hide Invariant, ReadyProgram, EventFits, Step, TameProgram, StepFault;
    if es == [] {
      DrawsKeepWeights(st0, st0);
      InitialInvariant(p, st0, st0);
    } else {
      RunKeepsInvariant(p, st0, es[..|es| - 1], fs);
      var before := Run(p, Start(p, st0), es[..|es| - 1]);
      if before.Ok? { StepKeepsInvariant(p, st0, before.value, es[|es| - 1], fs); }
    }
  }
}
