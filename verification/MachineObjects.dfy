/**
 The machine object: a state number, an environment and tables of transitions, driven by method calls,
 property sets, timeouts and resets. Each method is proved to do what its function on configurations says.
 */
module MachineObjects {
  import opened Results
  import opened VariantTypes
  import opened Language
  import opened Evaluator
  import opened Statements
  import opened Environments
  import opened OutputSequences
  import opened Transitions
  import opened Scanning
  import opened Machines
  import opened Simulator

  type Table = map<string, seq<Arc>>

  function Row(t: Table, name: string): seq<Arc> {
    if name in t then t[name] else []
  }

  ghost predicate MethodTable(t: Table, arcs: seq<Arc>) {
    forall name :: Row(t, name) == Bucket(arcs, MethodCall(name))
  }

  ghost predicate PropertyTable(t: Table, arcs: seq<Arc>) {
    forall name :: Row(t, name) == Bucket(arcs, PropertySet(name))
  }

  /** One more transition goes to the end of its row, and to no other. */
  lemma TablesGrow(methods: Table, properties: Table, arcs: seq<Arc>, i: nat)
    requires i < |arcs| && MethodTable(methods, arcs[..i]) && PropertyTable(properties, arcs[..i])
    ensures var arc, t := arcs[i], arcs[i].transition.trigger;
      && MethodTable(if t.MethodCall? then methods[t.name := Row(methods, t.name) + [arc]] else methods, arcs[..i + 1])
      && PropertyTable(
           if t.PropertySet? then properties[t.name := Row(properties, t.name) + [arc]] else properties, arcs[..i + 1])
      && Bucket(arcs[..i + 1], Arbitrary) == Bucket(arcs[..i], Arbitrary) + if t.Arbitrary? then [arc] else []
  {
    var arc, t := arcs[i], arcs[i].transition.trigger;
    assert arcs[..i + 1][..i] == arcs[..i];
    var methods' := if t.MethodCall? then methods[t.name := Row(methods, t.name) + [arc]] else methods;
    var properties' := if t.PropertySet? then properties[t.name := Row(properties, t.name) + [arc]] else properties;
    forall name ensures Row(methods', name) == Bucket(arcs[..i + 1], MethodCall(name)) {
      assert Row(methods, name) == Bucket(arcs[..i], MethodCall(name));
    }
    forall name ensures Row(properties', name) == Bucket(arcs[..i + 1], PropertySet(name)) {
      assert Row(properties, name) == Bucket(arcs[..i], PropertySet(name));
    }
  }

  /** Sort transitions into tables by what triggers them, keeping their order. */
  method SortTransitions(arcs: seq<Arc>) returns (methods: Table, properties: Table, others: seq<Arc>)
    ensures MethodTable(methods, arcs) && PropertyTable(properties, arcs) && others == Bucket(arcs, Arbitrary)
  {
    methods, properties, others := map[], map[], [];
    assert arcs[..0] == [] && MethodTable(methods, []) && PropertyTable(properties, []) && Bucket([], Arbitrary) == [];
    hide MethodTable, PropertyTable, Row, Bucket;
    for i := 0 to |arcs|
      invariant MethodTable(methods, arcs[..i]) && PropertyTable(properties, arcs[..i])
      invariant others == Bucket(arcs[..i], Arbitrary)
    {
      TablesGrow(methods, properties, arcs, i);
      var arc := arcs[i];
      match arc.transition.trigger {
        case MethodCall(name) => methods := methods[name := Row(methods, name) + [arc]];
        case PropertySet(name) => properties := properties[name := Row(properties, name) + [arc]];
        case Arbitrary => others := others + [arc];
      }
    }
    assert arcs[..|arcs|] == arcs;
  }

  method LookUpInterface(interfaces: seq<Interface>, name: string) returns (found: Option<Interface>)
    ensures found == FindInterface(interfaces, name)
  {
    for i := 0 to |interfaces|
      invariant FindInterface(interfaces, name) == FindInterface(interfaces[i..], name)
    {
      assert interfaces[i..][1..] == interfaces[i + 1..];
      if interfaces[i].name == name {
        return Some(interfaces[i]);
      }
    }
    return None;
  }

  // ----- the scan ---------------------------------------------------------------------------------

  /** The first classes found, and what is left to find. */
  ghost predicate ScannedTo(a: Attempt, offset: nat, i: nat, st0: Fuzz, cs: seq<Class>, st: Fuzz)
    requires i <= |a.bucket|
  {
    match Visit(a, offset, i, st)
    case Fail(f) => Visit(a, offset, 0, st0) == Fail(f)
    case Ok(v) => Visit(a, offset, 0, st0) == Ok(Visited(cs + v.classes, v.st))
  }

  /** The scan fails with the class looked for, ends with it, or goes on. */
  ghost predicate ScansOn(a: Attempt, offset: nat, i: nat, st0: Fuzz, cs: seq<Class>, r: Result<Classified>)
    requires i < |a.bucket|
  {
    match r
    case Fail(f) => Visit(a, offset, 0, st0) == Fail(f)
    case Ok(c) =>
      if c.kind.Runnable? then Visit(a, offset, 0, st0) == Ok(Visited(cs + [Runnable], c.st))
      else ScannedTo(a, offset, i + 1, st0, cs + [c.kind], c.st)
  }

  lemma ScanStep(a: Attempt, offset: nat, i: nat, st0: Fuzz, cs: seq<Class>, st: Fuzz)
    requires i < |a.bucket| && ScannedTo(a, offset, i, st0, cs, st)
    ensures ScansOn(a, offset, i, st0, cs, Classify(a, At(|a.bucket|, offset, i), st))
  {
    hide Classify, At;
    var c := Classify(a, At(|a.bucket|, offset, i), st);
    if c.Ok? && !c.value.kind.Runnable? {
      var rest := Visit(a, offset, i + 1, c.value.st);
      if rest.Ok? { assert cs + ([c.value.kind] + rest.value.classes) == cs + [c.value.kind] + rest.value.classes; }
    }
  }

  lemma SettleStep(cs: seq<Class>, c: Class)
    ensures Settle(cs + [c]) == Note(Settle(cs), |cs|, c)
  {
    assert (cs + [c])[..|cs|] == cs;
  }

  /** Examine one transition: its starting state, the handler's answer, its preconditions, and whether it throws. */
  method Examine(a: Attempt, k: nat, st: Fuzz) returns (r: Result<Classified>)
    requires k < |a.bucket|
    ensures r == Classify(a, k, st)
  {
    hide CheckPreconditions;
    var arc := a.bucket[k];
    if arc.from != a.state || !a.permits(k) {
      return Ok(Classified(Skipped, st));
    }
    var checked := CheckPreconditionsLoop(arc.transition.preconditions, a.env, st);
    if checked.Fail? {
      return Fail(checked.fault);
    }
    var now := checked.value.st;
    if checked.value.verdict.Unsatisfied? {
      return Ok(Classified(Refused(checked.value.verdict.error.Some?), now));
    }
    if arc.transition.ContainsThrow() {
      var skip := true;
      if a.enable {
        skip := now.Coin();
        now := now.Advance();
      }
      if skip {
        return Ok(Classified(Deferred, now));
      }
    }
    return Ok(Classified(Runnable, now));
  }

  function Settled(r: Result<Visited>): Result<(Fallbacks, Fuzz)> {
    var v :- r;
    Ok((Settle(v.classes), v.st))
  }

  /** The loop of find_and_execute_random_transition() over the possible transitions, up to one to execute. */
  method Scan(a: Attempt, offset: nat, st0: Fuzz) returns (r: Result<(Fallbacks, Fuzz)>)
    requires a.bucket != []
    ensures r == Settled(Visit(a, offset, 0, st0))
  {
    hide Visit, Settle, Classify, At, ScannedTo;
    var candidate: Option<nat>, failure: Option<nat> := None, None;
    ghost var cs: seq<Class> := [];
    var now := st0;
    ScanStart(a, offset, st0);
    for i := 0 to |a.bucket|
      invariant ScannedTo(a, offset, i, st0, cs, now) && |cs| == i
      invariant Settle(cs) == Fallbacks(None, candidate, failure)
    {
      ScanStep(a, offset, i, st0, cs, now);
      var examined := Examine(a, At(|a.bucket|, offset, i), now);
      if examined.Fail? {
        return Fail(examined.fault);
      }
      now := examined.value.st;
      SettleStep(cs, examined.value.kind);
      cs := cs + [examined.value.kind];
      match examined.value.kind {
        case Skipped =>
        case Refused(throws) =>
          if failure.None? && throws {
            failure := Some(i);
          }
        case Deferred =>
          candidate, failure := Some(i), None;
        case Runnable =>
          return Ok((Fallbacks(Some(i), None, None), now));
      }
    }
    ScanEnd(a, offset, st0, cs, now);
    r := Ok((Fallbacks(None, candidate, failure), now));
  }

  lemma ScanStart(a: Attempt, offset: nat, st0: Fuzz)
    ensures ScannedTo(a, offset, 0, st0, [], st0) && Settle([]) == NOTHING_FOUND
  {
    var v := Visit(a, offset, 0, st0);
    if v.Ok? { assert [] + v.value.classes == v.value.classes; }
  }

  lemma ScanEnd(a: Attempt, offset: nat, st0: Fuzz, cs: seq<Class>, st: Fuzz)
    requires ScannedTo(a, offset, |a.bucket|, st0, cs, st)
    ensures Visit(a, offset, 0, st0) == Ok(Visited(cs, st))
  {
    assert cs + [] == cs;
  }

  // ----- parameters -------------------------------------------------------------------------------

  /** Declare and set the local variable for one parameter. */
  method BindParameter(environment: Environment, arg: Arg, v: Value) returns (fault: Option<Fault>)
    requires environment.Valid()
    modifies environment, environment.Repr()
    ensures environment.Valid() && (forall x | x in environment.Repr() :: x in old(environment.Repr()) || fresh(x))
    ensures environment.SavedEnv() == old(environment.SavedEnv())
    ensures environment.HasResetPoint() == old(environment.HasResetPoint())
    ensures match DeclareVariable(old(environment.AsEnv()), Local, arg.name, arg.ty)
      case Fail(f) => fault == Some(f)
      case Ok(declared) =>
        match SetVariable(declared, Local, arg.name, v)
        case Ok(env) => fault.None? && environment.AsEnv() == env
        case Fail(f) => fault == Some(f)
  {
    hide Contents, Separated, Injective, SetVariable, DeclareVariable;
    fault := environment.SetVariableType(Local, arg.name, arg.ty);
    if fault.Some? {
      return;
    }
    fault := environment.SetVariableValue(Local, arg.name, v);
  }

  /** Declare and set local variables for the parameters of a method. */
  method BindParameters(environment: Environment, args: seq<Arg>, vs: seq<Value>) returns (fault: Option<Fault>)
    requires environment.Valid()
    modifies environment, environment.Repr()
    ensures environment.Valid() && (forall x | x in environment.Repr() :: x in old(environment.Repr()) || fresh(x))
    ensures environment.SavedEnv() == old(environment.SavedEnv())
    ensures environment.HasResetPoint() == old(environment.HasResetPoint())
    ensures match BindArgs(old(environment.AsEnv()), args, vs)
      case Ok(env) => fault.None? && environment.AsEnv() == env
      case Fail(f) => fault == Some(f)
  {
    hide Contents, Separated, Injective, SetVariable, DeclareVariable, Environment.Repr, Environment.Valid;
    ghost var env0 := environment.AsEnv();
    var i := 0;
    while i < |args| && i < |vs|
      invariant 0 <= i <= |args| && i <= |vs|
      invariant environment.Valid() && (forall x | x in environment.Repr() :: x in old(environment.Repr()) || fresh(x))
      invariant environment.SavedEnv() == old(environment.SavedEnv())
      invariant environment.HasResetPoint() == old(environment.HasResetPoint())
      invariant BindArgs(env0, args, vs) == BindArgs(environment.AsEnv(), args[i..], vs[i..])
    {
      assert args[i..][1..] == args[i + 1..] && vs[i..][1..] == vs[i + 1..];
      fault := BindParameter(environment, args[i], vs[i]);
      if fault.Some? {
        return;
      }
      i := i + 1;
    }
    fault := None;
  }

  /** Remove the local variables of the parameters again. */
  method UnbindParameters(environment: Environment, args: seq<Arg>, vs: seq<Value>)
    requires environment.Valid()
    modifies environment
    ensures environment.Valid() && environment.Repr() <= old(environment.Repr())
    ensures environment.SavedEnv() == old(environment.SavedEnv())
    ensures environment.HasResetPoint() == old(environment.HasResetPoint())
    ensures environment.AsEnv() == UnbindArgs(old(environment.AsEnv()), args, vs)
  {
    hide Contents, Separated, Injective, RemoveVariable;
    ghost var env0 := environment.AsEnv();
    var i := 0;
    while i < |args| && i < |vs|
      invariant 0 <= i <= |args| && i <= |vs|
      invariant environment.Valid() && environment.Repr() <= old(environment.Repr())
      invariant environment.SavedEnv() == old(environment.SavedEnv())
      invariant environment.HasResetPoint() == old(environment.HasResetPoint())
      invariant UnbindArgs(env0, args, vs) == UnbindArgs(environment.AsEnv(), args[i..], vs[i..])
    {
      assert args[i..][1..] == args[i + 1..] && vs[i..][1..] == vs[i + 1..];
      environment.UnsetVariable(Local, args[i].name);
      i := i + 1;
    }
  }

  class Machine {
    var state: nat
    var fuzz: Fuzz
    const environment: Environment
    const interfaces: seq<Interface>
    const methodTriggered: Table
    const propertyTriggered: Table
    const arbitrarilyTriggered: seq<Arc>
    ghost const program: Program

    ghost predicate Valid()
      reads this, environment, environment.Repr()
    {
      && environment.Valid() && environment.HasResetPoint() && environment.SavedEnv() == program.initial
      && interfaces == program.interfaces && program.rule.AsWritten?
      && MethodTable(methodTriggered, program.arcs) && PropertyTable(propertyTriggered, program.arcs)
      && arbitrarilyTriggered == Bucket(program.arcs, Arbitrary)
    }

    /** The configuration the machine is in. */
    ghost function Now(): Config
      reads this, environment, environment.Repr()
    {
      Config(state, environment.AsEnv(), fuzz)
    }

    /** The machine and the output sequence are where an outcome says, counting outputs from base on. */
    ghost predicate Holds(o: Outcome, base: seq<Output>, output: OutputSequence)
      reads this, environment, environment.Repr(), output
    {
      Now() == Config(o.state, o.env, o.st) && output.queue == base + o.out
    }

    /** _dfsm_machine_new(). */
    constructor (environment: Environment, states: nat, arcs: seq<Arc>, interfaces: seq<Interface>, fuzz: Fuzz)
      requires environment.Valid() && !environment.HasResetPoint()
      modifies environment
      ensures Valid() && this.environment == environment
      ensures program == Program(states, arcs, interfaces, old(environment.AsEnv()))
      ensures Now() == Start(program, fuzz)
      ensures (forall x | x in environment.Repr() :: x in old(environment.Repr()) || fresh(x))
    {
      hide Contents, CellSet, Separated;
      this.environment := environment;
      this.program := Program(states, arcs, interfaces, environment.AsEnv());
      environment.SaveResetPoint();
      this.state, this.fuzz, this.interfaces := 0, fuzz, interfaces;
      var methods, properties, others := SortTransitions(arcs);
      methodTriggered, propertyTriggered, arbitrarilyTriggered := methods, properties, others;
    }

    /** execute_transition(). */
    method ExecuteTransition(arc: Arc, enable: bool, output: OutputSequence, ghost o: Outcome, ghost base: seq<Output>)
      returns (fault: Option<Fault>)
      requires Valid() && Holds(o, base, output)
      modifies this, CellSet(environment.localVariables), CellSet(environment.objectVariables), output
      ensures Valid()
      ensures match Scanning.ExecuteTransition(arc, enable, o)
        case Ok(o') => fault.None? && Holds(o', base, output)
        case Fail(f) => fault == Some(f)
    {
      hide Contents, Separated, ExecAll, MethodTable, PropertyTable, Bucket, Injective;
      var r := ExecuteStatements(environment, arc.transition.statements, fuzz.(enabled := enable), output);
      if r.Fail? {
        return Some(r.fault);
      }
      fault := None;
      ghost var e := ExecAll(arc.transition.statements, o.env, o.st.(enabled := enable)).value;
      assert base + (o.out + e.out) == base + o.out + e.out;
      fuzz, state := r.value, if arc.transition.ContainsThrow() then state else arc.to;
    }

    /** Check preconditions once more, this time throwing the error of the one that fails. */
    method ReportFailure(arc: Arc, output: OutputSequence, ghost o: Outcome, ghost base: seq<Output>)
      returns (fault: Option<Fault>)
      requires Valid() && Holds(o, base, output)
      modifies this, output
      ensures Valid()
      ensures match Scanning.ReportFailure(arc, o)
        case Ok(o') => fault.None? && Holds(o', base, output)
        case Fail(f) => fault == Some(f)
    {
      hide Contents, Separated, MethodTable, PropertyTable, Bucket, Injective, CheckPreconditions;
      var r := CheckPreconditionsLoop(arc.transition.preconditions, environment.AsEnv(), fuzz);
      if r.Fail? {
        return Some(r.fault);
      }
      fault := None;
      assert base + o.out + Errors(r.value.verdict) == base + (o.out + Errors(r.value.verdict));
      fuzz := r.value.st;
      if r.value.verdict.Unsatisfied? && r.value.verdict.error.Some? {
        output.Add(ThrowOut(r.value.verdict.error.value));
      }
    }

    /** Execute or report the fallbacks of a scan that ran nothing, or nothing if there are none. */
    method FallBack(ghost a: Attempt, possible: seq<Arc>, enable: bool, offset: nat, failure: Option<nat>,
                    candidate: Option<nat>, outputted: bool, output: OutputSequence, ghost f: Fallbacks,
                    ghost ran: Outcome, ghost base: seq<Output>)
      returns (r: Result<bool>)
      requires Valid() && Holds(ran, base, output) && possible != [] && a.bucket == possible && a.enable == enable
      requires f.failure == failure && f.candidate == candidate && outputted == f.chosen.Some?
      modifies this, CellSet(environment.localVariables), CellSet(environment.objectVariables), output
      ensures Valid()
      ensures match Scanning.FallBack(a, offset, f, ran)
        case Ok(v) => r == Ok(v.outputted) && Holds(v.outcome, base, output)
        case Fail(f) => r == Fail(f)
    {
      hide Valid, Holds, Scanning.ExecuteTransition, Scanning.ReportFailure, At;
      ghost var o := ran;
      if failure.Some? {
        var arc := possible[At(|possible|, offset, failure.value)];
        var fault := ReportFailure(arc, output, o, base);
        if fault.Some? {
          return Fail(fault.value);
        }
        o := Scanning.ReportFailure(arc, o).value;
      }
      if candidate.Some? {
        var arc := possible[At(|possible|, offset, candidate.value)];
        var fault := ExecuteTransition(arc, enable, output, o, base);
        if fault.Some? {
          return Fail(fault.value);
        }
        o := Scanning.ExecuteTransition(arc, enable, o).value;
      }
      if failure.Some? && candidate.Some? {
        return Fail(BothFallbacks);
      }
      r := Ok(outputted || failure.Some? || candidate.Some?);
    }

    /** find_and_execute_random_transition(). */
    method FindAndExecuteRandomTransition(output: OutputSequence, possible: seq<Arc>, enable: bool,
                                          permits: nat -> bool)
      returns (r: Result<bool>)
      requires Valid()
      modifies this, CellSet(environment.localVariables), CellSet(environment.objectVariables), output
      ensures Valid()
      ensures match FindAndExecute(Attempt(possible, old(state), old(environment.AsEnv()), enable, permits), old(fuzz))
        case Ok(v) => r == Ok(v.outputted) && Holds(v.outcome, old(output.queue), output)
        case Fail(f) => r == Fail(f)
    {
      hide Contents, Separated, MethodTable, PropertyTable, Bucket, Injective;
      hide Scanning.ExecuteTransition, Visit, Settle, Scanning.FallBack;
      var a := Attempt(possible, state, environment.AsEnv(), enable, permits);
      ghost var base := output.queue;
      assert base + [] == base;
      if possible == [] {
        return Ok(false);
      }
      var offset := fuzz.Range(0, |possible|);
      var scanned := Scan(a, offset, fuzz.Advance());
      if scanned.Fail? {
        return Fail(scanned.fault);
      }
      var (f, st) := scanned.value;
      fuzz := st;
      ghost var ran := Outcome(a.state, a.env, st, []);
      assert Holds(ran, base, output);
      if f.chosen.Some? {
        var arc := possible[At(|possible|, offset, f.chosen.value)];
        var fault := ExecuteTransition(arc, enable, output, ran, base);
        if fault.Some? {
          return Fail(fault.value);
        }
        ran := Scanning.ExecuteTransition(arc, enable, ran).value;
      }
      r := FallBack(a, possible, enable, offset, f.failure, f.candidate, f.chosen.Some?, output, f, ran, base);
    }

    /** dfsm_machine_make_arbitrary_transition(). */
    method MakeArbitraryTransition(output: OutputSequence, enable: bool, permits: nat -> bool)
      returns (fault: Option<Fault>)
      requires Valid()
      modifies this, CellSet(environment.localVariables), CellSet(environment.objectVariables), output
      ensures Valid()
      ensures match Machines.MakeArbitraryTransition(program, old(Now()), enable, permits)
        case Ok(s) => fault.None? && Now() == s.config && output.queue == old(output.queue) + s.out
        case Fail(f) => fault == Some(f)
    {
      hide Contents, Separated, MethodTable, PropertyTable, Bucket, Injective, FindAndExecute;
      var r := FindAndExecuteRandomTransition(output, arbitrarilyTriggered, enable, permits);
      fault := if r.Fail? then Some(r.fault) else None;
    }

    /** dfsm_machine_reset_state(). */
    method ResetState()
      requires Valid()
      modifies this, environment
      ensures Valid() && (forall x | x in environment.Repr() :: x in old(environment.Repr()) || fresh(x))
      ensures Now() == Machines.ResetState(program, old(Now())).config
      ensures state == 0 && environment.AsEnv() == program.initial
    {
      hide Contents, Separated, MethodTable, PropertyTable, Bucket, Injective, CellSet;
      environment.Reset();
      state := 0;
    }

    /** The part of a method call that has transitions to try: bind the parameters, attempt, and unbind them. */
    method TryMethod(possible: seq<Arc>, args: seq<Arg>, params: seq<Value>, enable: bool, permits: nat -> bool,
                     output: OutputSequence)
      returns (r: Result<bool>)
      requires Valid()
      modifies this, environment, environment.Repr(), output
      ensures Valid() && (forall x | x in environment.Repr() :: x in old(environment.Repr()) || fresh(x))
      ensures match BindArgs(old(environment.AsEnv()), args, params)
        case Fail(f) => r == Fail(f)
        case Ok(bound) =>
          match FindAndExecute(Attempt(possible, old(state), bound, enable, permits), old(fuzz))
          case Fail(f) => r == Fail(f)
          case Ok(v) =>
            && r == Ok(v.outputted) && output.queue == old(output.queue) + v.outcome.out
            && Now() == Config(v.outcome.state, UnbindArgs(v.outcome.env, args, params), v.outcome.st)
    {
      hide Contents, CellSet, Separated, MethodTable, PropertyTable, Bucket;
      hide Injective, FindAndExecute, BindArgs, UnbindArgs;
      Apart(this, output, environment);
      var fault := BindParameters(environment, args, params);
      if fault.Some? {
        return Fail(fault.value);
      }
      Apart(this, output, environment);
      r := FindAndExecuteRandomTransition(output, possible, enable, permits);
      if r.Fail? {
        return;
      }
      UnbindParameters(environment, args, params);
    }

    /** dfsm_machine_call_method(). */
    method CallMethod(interfaceName: string, methodName: string, params: seq<Value>, enable: bool, permits: nat -> bool,
                      output: OutputSequence)
      returns (fault: Option<Fault>)
      requires Valid()
      modifies this, environment, environment.Repr(), output
      ensures Valid() && (forall x | x in environment.Repr() :: x in old(environment.Repr()) || fresh(x))
      ensures match Machines.CallMethod(program, old(Now()), interfaceName, methodName, params, enable, permits)
        case Ok(s) => fault.None? && Now() == s.config && output.queue == old(output.queue) + s.out
        case Fail(f) => fault == Some(f)
    {
      hide Contents, CellSet, Separated, Injective, FindAndExecute, BindArgs, UnbindArgs, Bucket, PropertyTable;
      var executed := false;
      var possible := Row(methodTriggered, methodName);
      assert possible == Bucket(program.arcs, MethodCall(methodName));
      if possible != [] {
        var found := LookUpInterface(interfaces, interfaceName);
        if found.Some? && methodName in found.value.methods {
          var r := TryMethod(possible, found.value.methods[methodName].inArgs, params, enable, permits, output);
          if r.Fail? {
            return Some(r.fault);
          }
          executed := r.value;
        }
      }
      if !executed {
        output.Add(UNIT_REPLY);
      }
      fault := None;
    }

    /** The default transition of a property. */
    method SetDefaultProperty(name: string, v: Value) returns (r: Result<bool>)
      requires Valid()
      modifies CellSet(environment.objectVariables)
      ensures Valid()
      ensures forall out :: match SetDefault(old(Now()), out, name, v)
        case Ok(s) => r == Ok(s.changed) && Now() == s.config && s.out == out
        case Fail(f) => r == Fail(f)
    {
      hide Contents, Separated, MethodTable, PropertyTable, Bucket, Injective, SetVariable;
      var variables := environment.AsEnv().objects;
      if name !in variables || variables[name].value.None? {
        return Fail(BadVariable);
      }
      if variables[name].value.value == v {
        return Ok(false);
      }
      var fault := environment.SetVariableValue(Object, name, v);
      r := if fault.Some? then Fail(fault.value) else Ok(true);
    }

    /** dfsm_machine_set_property(); the result says whether the property changed. */
    method SetProperty(name: string, v: Value, enable: bool, permits: nat -> bool, output: OutputSequence)
      returns (r: Result<bool>)
      requires Valid()
      modifies this, environment, environment.Repr(), output
      ensures Valid() && (forall x | x in environment.Repr() :: x in old(environment.Repr()) || fresh(x))
      ensures match Machines.SetProperty(program, old(Now()), name, v, enable, permits)
        case Ok(s) => r == Ok(s.changed) && Now() == s.config && output.queue == old(output.queue) + s.out
        case Fail(f) => r == Fail(f)
    {
      hide Contents, CellSet, Separated, Injective, FindAndExecute, BindArgs, Bucket, MethodTable, SetDefault;
      var executed := false;
      var possible := Row(propertyTriggered, name);
      assert possible == Bucket(program.arcs, PropertySet(name));
      ghost var c, out := Now(), [];
      assert output.queue + out == output.queue;
      if possible != [] {
        var args := [Arg("value", TypeOf(v))];
        var x := TryMethod(possible, args, [v], enable, permits, output);
        if x.Fail? {
          return Fail(x.fault);
        }
        executed := x.value;
        ghost var bound := BindArgs(c.env, args, [v]).value;
        ghost var o := FindAndExecute(Attempt(possible, c.state, bound, enable, permits), c.fuzz).value.outcome;
        OneParameter(o.env, args, [v]);
        out := o.out;
      }
      if executed {
        return Ok(true);
      }
      Apart(this, output, environment);
      r := SetDefaultProperty(name, v);
    }
  }

  /** Neither a machine nor an output sequence is a cell of an environment. */
  lemma Apart(m: Machine, output: OutputSequence, environment: Environment)
    ensures m !in environment.Repr() && output !in environment.Repr()
    ensures m !in CellSet(environment.objectVariables) && output !in CellSet(environment.objectVariables)
    ensures environment !in CellSet(environment.objectVariables) && environment !in CellSet(environment.localVariables)
  {
  }

  lemma OneParameter(env: Env, args: seq<Arg>, vs: seq<Value>)
    requires |args| == 1 && |vs| == 1
    ensures UnbindArgs(env, args, vs) == RemoveVariable(env, Local, args[0].name)
  {
  }
}
