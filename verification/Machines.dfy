/**
 A machine and its steps: method calls, property sets, arbitrary transitions and resets, each a function
 of the machine's configuration and of the event, random choices included.
 */
module Machines {
  import opened Results
  import opened VariantTypes
  import opened Language
  import opened Evaluator
  import opened Statements
  import opened Transitions
  import opened Scanning
  import opened Attempts

  // ----- interfaces -------------------------------------------------------------------------------

  datatype Arg = Arg(name: string, ty: Ty)

  datatype Method = Method(inArgs: seq<Arg>, outTypes: seq<Ty>)

  datatype Interface =
    Interface(name: string, methods: map<string, Method>, properties: map<string, Ty>, signals: Signals)

  function FindInterface(interfaces: seq<Interface>, name: string): Option<Interface> {
    if interfaces == [] then None
    else if interfaces[0].name == name then Some(interfaces[0])
    else FindInterface(interfaces[1..], name)
  }

  /** The method as the first interface that has one of the name declares it. */
  function DeclaredMethod(interfaces: seq<Interface>, name: string): Option<Method> {
    if interfaces == [] then None
    else if name in interfaces[0].methods then Some(interfaces[0].methods[name])
    else DeclaredMethod(interfaces[1..], name)
  }

  function DeclaredProperty(interfaces: seq<Interface>, name: string): Option<Ty> {
    if interfaces == [] then None
    else if name in interfaces[0].properties then Some(interfaces[0].properties[name])
    else DeclaredProperty(interfaces[1..], name)
  }

  function DeclaredSignals(interfaces: seq<Interface>): Signals {
    if interfaces == [] then map[] else DeclaredSignals(interfaces[1..]) + interfaces[0].signals
  }

  // ----- programs ---------------------------------------------------------------------------------

  /**
   A checked simulation: its numbered states, registered transitions, interfaces and initial variables; and
   the rule by which the machine that runs it remembers failures.
   */
  datatype Program =
    Program(states: nat, arcs: seq<Arc>, interfaces: seq<Interface>, initial: Env, rule: Rule := AsWritten)

  /** The registered transitions with a given trigger, in order of registration. */
  function Bucket(arcs: seq<Arc>, trigger: Trigger): seq<Arc> {
    if arcs == [] then [] else
      var last := arcs[|arcs| - 1];
      Bucket(arcs[..|arcs| - 1], trigger) + if last.transition.trigger == trigger then [last] else []
  }

  predicate DistinctNames(args: seq<Arg>) {
    forall i, j | 0 <= i < j < |args| :: args[i].name != args[j].name
  }

  /** The parameters of a method as local variables without values. */
  function ArgTable(args: seq<Arg>): map<string, Variable> {
    if args == [] then map[] else ArgTable(args[1..])[args[0].name := Variable(args[0].ty, None)]
  }

  lemma {:induction false} ArgTableKeys(args: seq<Arg>)
    ensures forall x :: x in ArgTable(args) <==> exists i | 0 <= i < |args| :: args[i].name == x
    decreases args
  {
    if args != [] {
      ArgTableKeys(args[1..]);
      forall i | 0 < i < |args| ensures args[i].name in ArgTable(args) { assert args[i] == args[1..][i - 1]; }
    }
  }

  /** What the checker checks the transitions of a trigger against; none for an undeclared trigger. */
  function ContextFor(p: Program, trigger: Trigger): Option<Context> {
    var signals := DeclaredSignals(p.interfaces);
    match trigger
    case MethodCall(name) =>
      var m :- DeclaredMethod(p.interfaces, name);
      // Declaring a parameter twice aborts the checker.
      if !DistinctNames(m.inArgs) then None
      else Some(Context(Env(ArgTable(m.inArgs), p.initial.objects), signals, m.outTypes))
    case PropertySet(name) =>
      var t :- DeclaredProperty(p.interfaces, name);
      Some(Context(Env(map["value" := Variable(t, None)], p.initial.objects), signals, []))
    case Arbitrary => Some(Context(Env(map[], p.initial.objects), signals, []))
  }

  /** The types D-Bus introspection data can spell. */
  predicate IntrospectedInterface(i: Interface) {
    && (forall x | x in i.methods :: DBusType(TTuple(i.methods[x].outTypes)))
    && (forall x, k | x in i.methods && 0 <= k < |i.methods[x].inArgs| :: DBusType(i.methods[x].inArgs[k].ty))
    && (forall x | x in i.properties :: DBusType(i.properties[x]))
    && (forall x | x in i.signals :: DBusType(TTuple(i.signals[x])))
  }

  predicate DistinctInterfaces(interfaces: seq<Interface>) {
    forall i, j | 0 <= i < j < |interfaces| :: interfaces[i].name != interfaces[j].name
  }

  /** Every property has an object variable of exactly its type. */
  predicate PropertiesHaveVariables(p: Program) {
    forall i | 0 <= i < |p.interfaces| ::
      forall x | x in p.interfaces[i].properties ::
        x in p.initial.objects && p.initial.objects[x].ty == p.interfaces[i].properties[x]
  }

  /** The checks of a whole object, and of each of its transitions in its own context. */
  predicate AcceptedProgram(p: Program) {
    && p.states > 0 && p.initial.locals == map[] && Conforms(p.initial)
    && (forall i | 0 <= i < |p.interfaces| :: IntrospectedInterface(p.interfaces[i]))
    && DistinctInterfaces(p.interfaces) && PropertiesHaveVariables(p)
    && (forall k | 0 <= k < |p.arcs| :: p.arcs[k].from < p.states && p.arcs[k].to < p.states)
    && (forall k | 0 <= k < |p.arcs| :: var cx := ContextFor(p, p.arcs[k].transition.trigger);
          cx.Some? && AcceptedTransition(p.arcs[k].transition, cx.value))
  }

  /** The tests the checker lacks, on every transition. */
  predicate GuardedProgram(p: Program) {
    forall k | 0 <= k < |p.arcs| :: var cx := ContextFor(p, p.arcs[k].transition.trigger);
      cx.Some? && GuardedTransition(p.arcs[k].transition, cx.value)
  }

  predicate ReadyProgram(p: Program) {
    AcceptedProgram(p) && GuardedProgram(p)
  }

  // ----- steps ------------------------------------------------------------------------------------

  datatype Config = Config(state: nat, env: Env, fuzz: Fuzz)

  /** The configuration after a step, what it output, and whether a property changed value. */
  datatype Stepped = Stepped(config: Config, out: seq<Output>, changed: bool)

  datatype Action =
    | Call(interfaceName: string, methodName: string, params: seq<Value>)
    | Set(propertyName: string, value: Value)
    | Timeout
    | Restart

  /** An action, whether to fuzz, the handler's answers, and everything drawn at random. */
  datatype Event = Event(action: Action, enable: bool, permits: nat -> bool, tape: nat -> Draw)

  const UNIT_REPLY: Output := ReplyOut(VTuple([]))

  /** Declare and set the parameters of a method, as many as there are both arguments and values. */
  function BindArgs(env: Env, args: seq<Arg>, vs: seq<Value>): Result<Env>
    decreases args
  {
    if args == [] || vs == [] then Ok(env) else
      var declared :- DeclareVariable(env, Local, args[0].name, args[0].ty);
      var bound :- SetVariable(declared, Local, args[0].name, vs[0]);
      BindArgs(bound, args[1..], vs[1..])
  }

  function UnbindArgs(env: Env, args: seq<Arg>, vs: seq<Value>): Env
    decreases args
  {
    if args == [] || vs == [] then env
    else UnbindArgs(RemoveVariable(env, Local, args[0].name), args[1..], vs[1..])
  }

  /** dfsm_machine_call_method(). */
  function CallMethod(p: Program, c: Config, interfaceName: string, methodName: string, params: seq<Value>,
                      enable: bool, permits: nat -> bool): Result<Stepped> {
    var bucket := Bucket(p.arcs, MethodCall(methodName));
    var i := FindInterface(p.interfaces, interfaceName);
    if bucket == [] || i.None? || methodName !in i.value.methods then Ok(Stepped(c, [UNIT_REPLY], false)) else
      var args := i.value.methods[methodName].inArgs;
      var bound :- BindArgs(c.env, args, params);
      var r :- FindAndExecute(Attempt(bucket, c.state, bound, enable, permits, p.rule), c.fuzz);
      var o := r.outcome;
      Ok(Stepped(Config(o.state, UnbindArgs(o.env, args, params), o.st),
                 if r.outputted then o.out else o.out + [UNIT_REPLY], false))
  }

  /** The default transition of a property: set its variable, unless it has the value already. */
  function SetDefault(c: Config, out: seq<Output>, name: string, v: Value): Result<Stepped> {
    if name !in c.env.objects || c.env.objects[name].value.None? then Fail(BadVariable)
    else if c.env.objects[name].value.value == v then Ok(Stepped(c, out, false))
    else
      var env :- SetVariable(c.env, Object, name, v);
      Ok(Stepped(c.(env := env), out, true))
  }

  /** dfsm_machine_set_property(). */
  function SetProperty(p: Program, c: Config, name: string, v: Value, enable: bool,
                       permits: nat -> bool): Result<Stepped> {
    var bucket := Bucket(p.arcs, PropertySet(name));
    if bucket == [] then SetDefault(c, [], name, v) else
      var bound :- BindArgs(c.env, [Arg("value", TypeOf(v))], [v]);
      var r :- FindAndExecute(Attempt(bucket, c.state, bound, enable, permits, p.rule), c.fuzz);
      var o := r.outcome;
      var c' := Config(o.state, RemoveVariable(o.env, Local, "value"), o.st);
      if r.outputted then Ok(Stepped(c', o.out, true)) else SetDefault(c', o.out, name, v)
  }

  /** dfsm_machine_make_arbitrary_transition(). */
  function MakeArbitraryTransition(p: Program, c: Config, enable: bool, permits: nat -> bool): Result<Stepped> {
    var r :- FindAndExecute(Attempt(Bucket(p.arcs, Arbitrary), c.state, c.env, enable, permits, p.rule), c.fuzz);
    Ok(Stepped(Config(r.outcome.state, r.outcome.env, r.outcome.st), r.outcome.out, false))
  }

  /** dfsm_machine_reset_state(). */
  function ResetState(p: Program, c: Config): Stepped {
    Stepped(Config(0, p.initial, c.fuzz), [], false)
  }

  function Step(p: Program, c: Config, e: Event): Result<Stepped> {
    var c' := c.(fuzz := c.fuzz.(tape := e.tape, pos := 0));
    match e.action
    case Call(i, m, params) => CallMethod(p, c', i, m, params, e.enable, e.permits)
    case Set(name, v) => SetProperty(p, c', name, v, e.enable, e.permits)
    case Timeout => MakeArbitraryTransition(p, c', e.enable, e.permits)
    case Restart => Ok(ResetState(p, c'))
  }

  /** The attempt that an event makes, where the machine has transitions for it and its parameters can be bound. */
  function AttemptOf(p: Program, c: Config, e: Event): Option<Attempt> {
    match e.action
    case Call(i, m, params) =>
      var found := FindInterface(p.interfaces, i);
      if found.None? || m !in found.value.methods then None
      else AttemptWith(p, MethodCall(m), BindArgs(c.env, found.value.methods[m].inArgs, params), c, e)
    case Set(name, v) => AttemptWith(p, PropertySet(name), BindArgs(c.env, [Arg("value", TypeOf(v))], [v]), c, e)
    case Timeout => AttemptWith(p, Arbitrary, Ok(c.env), c, e)
    case Restart => None
  }

  function AttemptWith(p: Program, trigger: Trigger, bound: Result<Env>, c: Config, e: Event): Option<Attempt> {
    var bucket := Bucket(p.arcs, trigger);
    if bucket == [] || bound.Fail? then None
    else Some(Attempt(bucket, c.state, bound.value, e.enable, e.permits, p.rule))
  }

  /** The state of the draws at the start of a step. */
  function DrawsOf(c: Config, e: Event): Fuzz {
    c.fuzz.(tape := e.tape, pos := 0)
  }

  /** The event is one that the transition waits for. */
  predicate Triggers(action: Action, trigger: Trigger) {
    match trigger
    case MethodCall(name) => action.Call? && action.methodName == name
    case PropertySet(name) => action.Set? && action.propertyName == name
    case Arbitrary => action.Timeout?
  }

  /** The configuration a machine starts in: state 0, its initial variables, and some weights. */
  function Start(p: Program, st: Fuzz): Config {
    Config(0, p.initial, st)
  }

  function Run(p: Program, c: Config, es: seq<Event>): Result<Config> {
    if es == [] then Ok(c) else
      var before :- Run(p, c, es[..|es| - 1]);
      var s :- Step(p, before, es[|es| - 1]);
      Ok(s.config)
  }

  // ----- buckets ----------------------------------------------------------------------------------

  lemma {:induction false} BucketMeans(arcs: seq<Arc>, trigger: Trigger)
    ensures forall arc :: arc in Bucket(arcs, trigger) <==> arc in arcs && arc.transition.trigger == trigger
  {
    if arcs != [] {
      BucketMeans(arcs[..|arcs| - 1], trigger);
      assert arcs == arcs[..|arcs| - 1] + [arcs[|arcs| - 1]];
    }
  }

  // ----- declarations -----------------------------------------------------------------------------

  predicate FirstOfName(interfaces: seq<Interface>, name: string, i: nat) {
    && i < |interfaces| && interfaces[i].name == name
    && forall j | 0 <= j < i :: interfaces[j].name != name
  }

  predicate FirstMethod(interfaces: seq<Interface>, name: string, i: nat) {
    && i < |interfaces| && name in interfaces[i].methods
    && forall j | 0 <= j < i :: name !in interfaces[j].methods
  }

  predicate FirstProperty(interfaces: seq<Interface>, name: string, i: nat) {
    && i < |interfaces| && name in interfaces[i].properties
    && forall j | 0 <= j < i :: name !in interfaces[j].properties
  }

  predicate FirstSignal(interfaces: seq<Interface>, name: string, i: nat) {
    && i < |interfaces| && name in interfaces[i].signals
    && forall j | 0 <= j < i :: name !in interfaces[j].signals
  }

  /** Of several interfaces of one name, or with one declaration, the first counts. */
  lemma {:induction false} FirstCounts(interfaces: seq<Interface>, name: string, i: nat)
    ensures FirstOfName(interfaces, name, i) ==> FindInterface(interfaces, name) == Some(interfaces[i])
    ensures FirstMethod(interfaces, name, i) ==> DeclaredMethod(interfaces, name) == Some(interfaces[i].methods[name])
    ensures FirstProperty(interfaces, name, i) ==>
      DeclaredProperty(interfaces, name) == Some(interfaces[i].properties[name])
    ensures FirstSignal(interfaces, name, i) ==>
      name in DeclaredSignals(interfaces) && DeclaredSignals(interfaces)[name] == interfaces[i].signals[name]
    decreases interfaces
  {
    if interfaces != [] && i > 0 {
      FirstCounts(interfaces[1..], name, i - 1);
      forall j | 0 <= j < |interfaces| - 1 ensures interfaces[1..][j] == interfaces[j + 1] {}
    }
  }

  /** And where there is none, none is found. */
  lemma {:induction false} NoneCounts(interfaces: seq<Interface>, name: string)
    ensures FindInterface(interfaces, name).None? <==> forall i | 0 <= i < |interfaces| :: interfaces[i].name != name
    ensures DeclaredMethod(interfaces, name).None? <==>
      forall i | 0 <= i < |interfaces| :: name !in interfaces[i].methods
    ensures DeclaredProperty(interfaces, name).None? <==>
      forall i | 0 <= i < |interfaces| :: name !in interfaces[i].properties
    ensures name !in DeclaredSignals(interfaces) <==> forall i | 0 <= i < |interfaces| :: name !in interfaces[i].signals
    decreases interfaces
  {
    if interfaces != [] {
      NoneCounts(interfaces[1..], name);
      forall j | 0 < j < |interfaces| ensures interfaces[j] == interfaces[1..][j - 1] {}
    }
  }

  /** The parameters of a method as the checker declares them. */
  predicate Parameters(locals: map<string, Variable>, args: seq<Arg>) {
    && (forall i | 0 <= i < |args| :: args[i].name in locals && locals[args[i].name].ty == args[i].ty)
    && forall x | x in locals :: exists i | 0 <= i < |args| :: args[i].name == x
  }

  /**
   What transitions are checked against: the object's variables, all signals as first declared, and as local variables
   the parameters of the method as first declared, with its reply types, or the value of the property.
   */
  lemma ContextMeans(p: Program, trigger: Trigger, cx: Context)
    requires ContextFor(p, trigger) == Some(cx)
    ensures cx.env.objects == p.initial.objects
    ensures forall s, i: nat | FirstSignal(p.interfaces, s, i) ::
      s in cx.signals && cx.signals[s] == p.interfaces[i].signals[s]
    ensures forall s | s in cx.signals :: exists i :: 0 <= i < |p.interfaces| && s in p.interfaces[i].signals
    ensures trigger.MethodCall? ==> forall i: nat | FirstMethod(p.interfaces, trigger.name, i) ::
      var m := p.interfaces[i].methods[trigger.name];
      cx.outs == m.outTypes && DistinctNames(m.inArgs) && Parameters(cx.env.locals, m.inArgs)
    ensures trigger.PropertySet? ==> forall i: nat | FirstProperty(p.interfaces, trigger.name, i) ::
      cx.outs == [] && Parameters(cx.env.locals, [Arg("value", p.interfaces[i].properties[trigger.name])])
    ensures trigger.Arbitrary? ==> cx.outs == [] && cx.env.locals == map[]
  {
    forall s, i: nat | FirstSignal(p.interfaces, s, i)
      ensures s in cx.signals && cx.signals[s] == p.interfaces[i].signals[s]
    {
      FirstCounts(p.interfaces, s, i);
    }
    forall s | s in cx.signals ensures exists i :: 0 <= i < |p.interfaces| && s in p.interfaces[i].signals {
      NoneCounts(p.interfaces, s);
    }
    match trigger
    case MethodCall(name) =>
      forall i: nat | FirstMethod(p.interfaces, name, i)
        ensures var m := p.interfaces[i].methods[name];
          cx.outs == m.outTypes && DistinctNames(m.inArgs) && Parameters(cx.env.locals, m.inArgs)
      {
        FirstCounts(p.interfaces, name, i);
        ArgTableParameters(p.interfaces[i].methods[name].inArgs);
      }
    case PropertySet(name) =>
      forall i: nat | FirstProperty(p.interfaces, name, i)
        ensures cx.outs == [] && Parameters(cx.env.locals, [Arg("value", p.interfaces[i].properties[name])])
      {
        FirstCounts(p.interfaces, name, i);
        assert [Arg("value", p.interfaces[i].properties[name])][0].name == "value";
      }
    case Arbitrary =>
  }

  lemma {:induction false} ArgTableParameters(args: seq<Arg>)
    requires DistinctNames(args)
    ensures Parameters(ArgTable(args), args)
    decreases args
  {
    if args != [] {
      ArgTableParameters(args[1..]);
      forall i | 0 < i < |args|
        ensures args[i].name in ArgTable(args) && ArgTable(args)[args[i].name].ty == args[i].ty
      {
        assert args[i] == args[1..][i - 1];
      }
      ArgTableKeys(args);
    }
  }

  /** All transitions of a bucket are checked in the one context of their trigger. */
  lemma BucketReady(p: Program, trigger: Trigger)
    requires ReadyProgram(p) && Bucket(p.arcs, trigger) != []
    ensures ContextFor(p, trigger).Some? && ReadyBucket(Bucket(p.arcs, trigger), ContextFor(p, trigger).value)
  {
    hide AcceptedTransition, GuardedTransition, ContextFor, Conforms, IntrospectedInterface, PropertiesHaveVariables;
    var bucket := Bucket(p.arcs, trigger);
    BucketMeans(p.arcs, trigger);
    forall k | 0 <= k < |bucket|
      ensures ContextFor(p, trigger).Some? && ReadyTransition(bucket[k].transition, ContextFor(p, trigger).value)
    {
      assert bucket[k] in p.arcs;
      var j :| 0 <= j < |p.arcs| && p.arcs[j] == bucket[k];
    }
    assert ReadyTransition(bucket[0].transition, ContextFor(p, trigger).value);
  }
}
