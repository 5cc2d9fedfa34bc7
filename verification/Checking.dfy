/**
 Checking a transition in the object's own environment: its parameters are declared there while it is
 checked, and the environment is as it was afterwards.
 */
module Checking {
  import opened Results
  import opened VariantTypes
  import opened Language
  import opened Statements
  import opened Environments
  import opened Transitions
  import opened Machines

  // ----- looking up declarations ------------------------------------------------------------------

  /** The first interface that declares a method of the name. */
  method LookUpMethod(interfaces: seq<Interface>, name: string) returns (found: Option<Method>)
    ensures found == DeclaredMethod(interfaces, name)
  {
    for i := 0 to |interfaces|
      invariant DeclaredMethod(interfaces, name) == DeclaredMethod(interfaces[i..], name)
    {
      assert interfaces[i..][1..] == interfaces[i + 1..];
      if name in interfaces[i].methods {
        return Some(interfaces[i].methods[name]);
      }
    }
    return None;
  }

  method LookUpProperty(interfaces: seq<Interface>, name: string) returns (found: Option<Ty>)
    ensures found == DeclaredProperty(interfaces, name)
  {
    for i := 0 to |interfaces|
      invariant DeclaredProperty(interfaces, name) == DeclaredProperty(interfaces[i..], name)
    {
      assert interfaces[i..][1..] == interfaces[i + 1..];
      if name in interfaces[i].properties {
        return Some(interfaces[i].properties[name]);
      }
    }
    return None;
  }

  /** The search of dfsm_ast_statement_emit_check(): the first interface with the signal gives its name and types. */
  method LookUpSignal(interfaces: seq<Interface>, signal: string) returns (found: Option<(string, seq<Ty>)>)
    ensures found.Some? <==> signal in DeclaredSignals(interfaces)
    ensures found.Some? ==> found.value.1 == DeclaredSignals(interfaces)[signal]
    ensures found.Some? ==> exists i ::
      && 0 <= i < |interfaces| && interfaces[i].name == found.value.0 && signal in interfaces[i].signals
      && forall j | 0 <= j < i :: signal !in interfaces[j].signals
  {
    for i := 0 to |interfaces|
      invariant forall j | 0 <= j < i :: signal !in interfaces[j].signals
      invariant signal in DeclaredSignals(interfaces) <==> signal in DeclaredSignals(interfaces[i..])
      invariant signal in DeclaredSignals(interfaces) ==>
        DeclaredSignals(interfaces)[signal] == DeclaredSignals(interfaces[i..])[signal]
    {
      assert interfaces[i..][1..] == interfaces[i + 1..];
      if signal in interfaces[i].signals {
        return Some((interfaces[i].name, interfaces[i].signals[signal]));
      }
    }
    return None;
  }

  // ----- the parameters while checking ------------------------------------------------------------

  function DeclareArgs(env: Env, args: seq<Arg>): Result<Env>
    decreases args
  {
    if args == [] then Ok(env) else
      var declared :- DeclareVariable(env, Local, args[0].name, args[0].ty);
      DeclareArgs(declared, args[1..])
  }

  function RemoveArgs(env: Env, args: seq<Arg>): Env
    decreases args
  {
    if args == [] then env else RemoveArgs(RemoveVariable(env, Local, args[0].name), args[1..])
  }

  predicate AllNew(env: Env, args: seq<Arg>) {
    forall i | 0 <= i < |args| :: args[i].name !in env.locals
  }

  /** Declaring parameters succeeds just when they are new and distinct, and adds them without values. */
  lemma {:induction false} DeclareArgsMeans(env: Env, args: seq<Arg>)
    ensures DeclareArgs(env, args).Ok? <==> DistinctNames(args) && AllNew(env, args)
    ensures DeclareArgs(env, args).Ok? ==> DeclareArgs(env, args).value == env.(locals := env.locals + ArgTable(args))
    ensures DeclareArgs(env, args).Fail? ==> DeclareArgs(env, args).fault.BadVariable?
    decreases args
  {
    hide ArgTable;
    if args == [] {
      assert ArgTable([]) == map[] by { NoArgs(); }
      assert env.locals + map[] == env.locals;
    } else if args[0].name !in env.locals {
      var env1 := env.(locals := env.locals[args[0].name := Variable(args[0].ty, None)]);
      DeclareArgsMeans(env1, args[1..]);
      NewAndDistinct(env, env1, args);
      if DeclareArgs(env, args).Ok? { ArgsAdded(env.locals, args); }
    }
  }

  lemma NoArgs()
    ensures ArgTable([]) == map[]
  {
  }

  lemma NewAndDistinct(env: Env, env1: Env, args: seq<Arg>)
    requires args != [] && args[0].name !in env.locals && env1.locals.Keys == env.locals.Keys + {args[0].name}
    ensures DistinctNames(args[1..]) && AllNew(env1, args[1..]) <==> DistinctNames(args) && AllNew(env, args)
  {
    var rest := args[1..];
    assert forall i | 0 <= i < |rest| :: rest[i] == args[i + 1];
    if DistinctNames(rest) && AllNew(env1, rest) {
      forall i, j | 0 <= i < j < |args| ensures args[i].name != args[j].name {
        assert args[j] == rest[j - 1];
        if i > 0 { assert args[i] == rest[i - 1]; }
      }
      forall i | 0 <= i < |args| ensures args[i].name !in env.locals {
        if i > 0 { assert args[i] == rest[i - 1]; }
      }
    }
  }

  lemma ArgsAdded(locals: map<string, Variable>, args: seq<Arg>)
    requires args != [] && DistinctNames(args)
    ensures locals[args[0].name := Variable(args[0].ty, None)] + ArgTable(args[1..]) == locals + ArgTable(args)
  {
    ArgTableKeys(args[1..]);
    assert args[0].name !in ArgTable(args[1..]) by {
      assert forall i | 0 <= i < |args[1..]| :: args[1..][i] == args[i + 1];
    }
  }

  lemma {:induction false} RemoveArgsMeans(env: Env, args: seq<Arg>)
    ensures RemoveArgs(env, args) == Env(env.locals - ArgTable(args).Keys, env.objects)
    decreases args
  {
    if args == [] {
      assert env.locals - {} == env.locals;
    } else {
      var env1 := RemoveVariable(env, Local, args[0].name);
      RemoveArgsMeans(env1, args[1..]);
      assert ArgTable(args).Keys == ArgTable(args[1..]).Keys + {args[0].name};
      assert env1.locals - ArgTable(args[1..]).Keys == env.locals - ArgTable(args).Keys;
    }
  }

  method DeclareParameters(environment: Environment, args: seq<Arg>) returns (fault: Option<Fault>)
    requires environment.Valid()
    modifies environment
    ensures environment.Valid() && (forall x | x in environment.Repr() :: x in old(environment.Repr()) || fresh(x))
    ensures environment.SavedEnv() == old(environment.SavedEnv())
    ensures environment.HasResetPoint() == old(environment.HasResetPoint())
    ensures match DeclareArgs(old(environment.AsEnv()), args)
      case Ok(env) => fault.None? && environment.AsEnv() == env
      case Fail(f) => fault == Some(f)
  {
    hide Contents, Separated, Injective, DeclareVariable;
    ghost var env0 := environment.AsEnv();
    for i := 0 to |args|
      invariant environment.Valid() && (forall x | x in environment.Repr() :: x in old(environment.Repr()) || fresh(x))
      invariant environment.SavedEnv() == old(environment.SavedEnv())
      invariant environment.HasResetPoint() == old(environment.HasResetPoint())
      invariant DeclareArgs(env0, args) == DeclareArgs(environment.AsEnv(), args[i..])
    {
      assert args[i..][1..] == args[i + 1..];
      fault := environment.SetVariableType(Local, args[i].name, args[i].ty);
      if fault.Some? {
        return;
      }
    }
    fault := None;
  }

  method RemoveParameters(environment: Environment, args: seq<Arg>)
    requires environment.Valid()
    modifies environment
    ensures environment.Valid() && environment.Repr() <= old(environment.Repr())
    ensures environment.SavedEnv() == old(environment.SavedEnv())
    ensures environment.HasResetPoint() == old(environment.HasResetPoint())
    ensures environment.AsEnv() == RemoveArgs(old(environment.AsEnv()), args)
  {
    hide Contents, Separated, Injective, RemoveVariable;
    ghost var env0 := environment.AsEnv();
    for i := 0 to |args|
      invariant environment.Valid() && environment.Repr() <= old(environment.Repr())
      invariant environment.SavedEnv() == old(environment.SavedEnv())
      invariant environment.HasResetPoint() == old(environment.HasResetPoint())
      invariant RemoveArgs(env0, args) == RemoveArgs(environment.AsEnv(), args[i..])
    {
      assert args[i..][1..] == args[i + 1..];
      environment.UnsetVariable(Local, args[i].name);
    }
  }

  // ----- types calculated without checking --------------------------------------------------------

  /**
   The type an expression is taken to have where it has not been checked; None where the calculation aborts. It
   looks neither at the operands of a comparison or a boolean operator, nor at the right operand of any other,
   nor into a variant.
   */
  function CalculateType(e: Expr, env: Env): Option<Ty> {
    match e
    case Data(_, annotation, lit) =>
      var calculated :- CalculateLiteral(lit, env);
      if annotation.Some? && !Subtype(annotation.value, calculated) then None else
        var ty := if annotation.Some? then annotation.value else calculated;
        if Definite(ty) then Some(ty) else None
    case Not(_) => Some(TBool)
    case Binary(op, l, _) => if op.Arith? then CalculateType(l, env) else Some(TBool)
    case Call(fn, p) =>
      var pt :- CalculateType(p, env);
      FunctionType(fn, pt)
  }

  function CalculateLiteral(lit: Literal, env: Env): Option<Ty> {
    match lit
    case LArray(items) =>
      var ts :- CalculateAll(items, env);
      Some(TArray(LeastGeneral(None, ts, TAny).GetOr(TAny)))
    case LStruct(items) =>
      var ts :- CalculateAll(items, env);
      Some(TTuple(ts))
    case LVariant(_) => Some(TVariant)
    case LDict(entries) =>
      var ts :- CalculateEntries(entries, env);
      Some(TArray(TEntry(LeastGeneral(None, KeyTypes(ts), TBasic).GetOr(TBasic),
                         LeastGeneral(None, ValTypes(ts), TAny).GetOr(TAny))))
    case _ => CheckLiteral(lit, env)
  }

  function CalculateAll(es: seq<Expr>, env: Env): Option<seq<Ty>> {
    if es == [] then Some([]) else
      var t :- CalculateType(es[0], env);
      var ts :- CalculateAll(es[1..], env);
      Some([t] + ts)
  }

  function CalculateEntry(entry: Entry, env: Env): (r: Option<Ty>)
    ensures r.Some? ==> r.value.TEntry?
  {
    var k :- CalculateType(entry.key, env);
    var v :- CalculateType(entry.val, env);
    Some(TEntry(k, v))
  }

  function CalculateEntries(es: seq<Entry>, env: Env): (r: Option<seq<Ty>>)
    ensures r.Some? ==> forall i | 0 <= i < |r.value| :: r.value[i].TEntry?
  {
    if es == [] then Some([]) else
      var t :- CalculateEntry(es[0], env);
      var ts :- CalculateEntries(es[1..], env);
      Some([t] + ts)
  }

  /** An expression that passes the check has the type calculated. */
  lemma {:induction false} CheckedIsCalculated(e: Expr, env: Env)
    requires Check(e, env).Some?
    ensures CalculateType(e, env) == Check(e, env)
    decreases e
  {
    match e
    case Data(_, _, lit) => CheckedLiteralIsCalculated(lit, env);
    case Not(_) =>
    case Binary(_, l, _) => CheckedIsCalculated(l, env);
    case Call(_, p) => CheckedIsCalculated(p, env);
  }

  lemma {:induction false} CheckedLiteralIsCalculated(lit: Literal, env: Env)
    requires CheckLiteral(lit, env).Some?
    ensures CalculateLiteral(lit, env) == CheckLiteral(lit, env)
    decreases lit
  {
    match lit
    case LArray(items) => CheckedAllIsCalculated(items, env);
    case LStruct(items) => CheckedAllIsCalculated(items, env);
    case LDict(entries) => CheckedEntriesIsCalculated(entries, env);
    case _ =>
  }

  lemma {:induction false} CheckedAllIsCalculated(es: seq<Expr>, env: Env)
    requires CheckAll(es, env).Some?
    ensures CalculateAll(es, env) == CheckAll(es, env)
    decreases es
  {
    if es != [] {
      CheckedIsCalculated(es[0], env);
      CheckedAllIsCalculated(es[1..], env);
    }
  }

  lemma {:induction false} CheckedEntriesIsCalculated(es: seq<Entry>, env: Env)
    requires CheckEntries(es, env).Some?
    ensures CalculateEntries(es, env) == CheckEntries(es, env)
    decreases es
  {
    if es != [] {
      CheckedEntryIsCalculated(es[0], env);
      CheckedEntriesIsCalculated(es[1..], env);
    }
  }

  lemma {:induction false} CheckedEntryIsCalculated(entry: Entry, env: Env)
    requires CheckEntry(entry, env).Some?
    ensures CalculateEntry(entry, env) == CheckEntry(entry, env)
    decreases entry
  {
    CheckedIsCalculated(entry.key, env);
    CheckedIsCalculated(entry.val, env);
  }

  // ----- checking ---------------------------------------------------------------------------------

  /** Check every precondition and statement in order. */
  method CheckParts(t: Transition, cx: Context) returns (ok: bool)
    requires WellShaped(t)
    ensures ok == AcceptedTransition(t, cx)
  {
    hide AcceptedStatement, Check, Parsed, WellShaped;
    for i := 0 to |t.preconditions|
      invariant forall j | 0 <= j < i ::
        Parsed(t.preconditions[j].condition) && Check(t.preconditions[j].condition, cx.env) == Some(TBool)
    {
      var condition := t.preconditions[i].condition;
      if !Parsed(condition) || Check(condition, cx.env) != Some(TBool) {
        return false;
      }
    }
    for i := 0 to |t.statements|
      invariant forall j | 0 <= j < i :: AcceptedStatement(t.statements[j], cx)
    {
      if !AcceptedStatement(t.statements[i], cx) {
        return false;
      }
    }
    return true;
  }

  /** The parameters a trigger declares, and the types of its reply; none for an undeclared trigger. */
  function DeclarationOf(interfaces: seq<Interface>, trigger: Trigger): Option<Method> {
    match trigger
    case MethodCall(name) => DeclaredMethod(interfaces, name)
    case PropertySet(name) =>
      var ty :- DeclaredProperty(interfaces, name);
      Some(Method([Arg("value", ty)], []))
    case Arbitrary => Some(Method([], []))
  }

  method LookUpDeclaration(interfaces: seq<Interface>, trigger: Trigger) returns (d: Option<Method>)
    ensures d == DeclarationOf(interfaces, trigger)
  {
    match trigger {
      case MethodCall(name) =>
        d := LookUpMethod(interfaces, name);
      case PropertySet(name) =>
        var ty := LookUpProperty(interfaces, name);
        d := if ty.Some? then Some(Method([Arg("value", ty.value)], [])) else None;
      case Arbitrary =>
        d := Some(Method([], []));
    }
  }

  /** Calculating the type of a reply statement aborts. */
  predicate ReplyAborts(t: Transition, env: Env) {
    exists i | 0 <= i < |t.statements| :: t.statements[i].Reply? && CalculateType(t.statements[i].reply, env).None?
  }

  predicate ReplyMatches(t: Transition, cx: Context) {
    forall i | 0 <= i < |t.statements| && t.statements[i].Reply? ::
      var ty := CalculateType(t.statements[i].reply, cx.env); ty.Some? && Subtype(ty.value, TTuple(cx.outs))
  }

  lemma AcceptedReplies(t: Transition, cx: Context)
    requires AcceptedTransition(t, cx)
    ensures ReplyMatches(t, cx) && !ReplyAborts(t, cx.env)
  {
    hide CalculateType, Check, Parsed, WellShaped;
    forall i | 0 <= i < |t.statements| && t.statements[i].Reply?
      ensures CalculateType(t.statements[i].reply, cx.env) == Check(t.statements[i].reply, cx.env)
    {
      assert AcceptedStatement(t.statements[i], cx);
      CheckedIsCalculated(t.statements[i].reply, cx.env);
    }
  }

  /** The last of the replies, as the pre-check remembers it. */
  method RememberedReply(t: Transition) returns (found: Option<nat>)
    ensures found.Some? ==> found.value < |t.statements| && t.statements[found.value].Reply?
    ensures WellShaped(t) ==> forall i | 0 <= i < |t.statements| :: t.statements[i].Reply? <==> found == Some(i)
  {
    found := None;
    for i := 0 to |t.statements|
      invariant found.Some? ==> found.value < i && t.statements[found.value].Reply?
      invariant forall j | 0 <= j < i && t.statements[j].Reply? :: found.Some? && j <= found.value
    {
      if t.statements[i].Reply? {
        found := Some(i);
      }
    }
    if WellShaped(t) && found.Some? {
      forall j | 0 <= j < |t.statements| && t.statements[j].Reply? ensures j == found.value {
        if j < found.value { TwoResponses(t.statements, j, found.value); }
      }
    }
  }

  lemma {:induction false} SomeResponse(ss: seq<Statement>, i: nat)
    requires i < |ss| && Responds(ss[i])
    ensures ResponseCount(ss) >= 1
    decreases |ss|
  {
    if i < |ss| - 1 { SomeResponse(ss[..|ss| - 1], i); }
  }

  lemma {:induction false} TwoResponses(ss: seq<Statement>, i: nat, j: nat)
    requires i < j < |ss| && Responds(ss[i]) && Responds(ss[j])
    ensures ResponseCount(ss) >= 2
    decreases |ss|
  {
    var init := ss[..|ss| - 1];
    if j < |ss| - 1 {
      TwoResponses(init, i, j);
    } else {
      SomeResponse(init, i);
    }
  }

  /**
   The reply is looked at first: its type is calculated although it has not been checked. None where the
   calculation aborts, and otherwise whether the type fits.
   */
  method CheckReply(t: Transition, cx: Context) returns (fits: Option<bool>)
    requires WellShaped(t)
    ensures fits.None? <==> ReplyAborts(t, cx.env)
    ensures fits.Some? ==> fits.value == ReplyMatches(t, cx)
  {
    hide WellShaped, CalculateType;
    var reply := RememberedReply(t);
    if reply.None? {
      return Some(true);
    }
    var ty := CalculateType(t.statements[reply.value].reply, cx.env);
    fits := if ty.None? then None else Some(Subtype(ty.value, TTuple(cx.outs)));
  }

  /** Check the reply of a method, and then everything. */
  method CheckInContext(t: Transition, cx: Context) returns (ok: Option<bool>)
    requires WellShaped(t)
    ensures ok.None? <==> t.trigger.MethodCall? && ReplyAborts(t, cx.env)
    ensures ok == Some(true) <==> AcceptedTransition(t, cx)
  {
    hide AcceptedTransition, WellShaped, ReplyAborts, ReplyMatches;
    if AcceptedTransition(t, cx) { AcceptedReplies(t, cx); }
    if t.trigger.MethodCall? {
      var fits := CheckReply(t, cx);
      if fits != Some(true) {
        return fits;
      }
    }
    var parts := CheckParts(t, cx);
    ok := Some(parts);
  }

  /** A method declares a parameter twice, or the type of its reply cannot be calculated. */
  predicate CheckAborts(interfaces: seq<Interface>, t: Transition, cx: Option<Context>) {
    && t.trigger.MethodCall? && DeclaredMethod(interfaces, t.trigger.name).Some?
    && (cx.None? || ReplyAborts(t, cx.value.env))
  }

  /**
   dfsm_ast_transition_check(). The transition is accepted just when it is in the context of its trigger, and
   the environment is left as it was. An assertion fails just when parameters have one name twice, or when the
   type of the reply cannot be calculated, which happens before the reply is checked.
   */
  method CheckTransition(environment: Environment, interfaces: seq<Interface>, t: Transition) returns (r: Result<bool>)
    requires environment.Valid() && environment.AsEnv().locals == map[] && WellShaped(t)
    modifies environment
    ensures environment.Valid() && (forall x | x in environment.Repr() :: x in old(environment.Repr()) || fresh(x))
    ensures r.Ok? ==> environment.AsEnv() == old(environment.AsEnv())
    ensures environment.SavedEnv() == old(environment.SavedEnv())
    ensures var cx := ContextFor(Program(0, [], interfaces, old(environment.AsEnv())), t.trigger);
      && (r == Ok(true) <==> cx.Some? && AcceptedTransition(t, cx.value))
      && (r.Fail? <==> CheckAborts(interfaces, t, cx))
  {
    hide Contents, CellSet, Separated, Injective, AcceptedTransition, WellShaped, ReplyAborts, DistinctNames;
    ghost var env0 := environment.AsEnv();
    ghost var cx := ContextFor(Program(0, [], interfaces, env0), t.trigger);
    var d := LookUpDeclaration(interfaces, t.trigger);
    if d.None? {
      return Ok(false);
    }
    var args := d.value.inArgs;
    DeclareArgsMeans(env0, args);
    var fault := DeclareParameters(environment, args);
    if fault.Some? {
      return Fail(fault.value);
    }
    var context := Context(environment.AsEnv(), DeclaredSignals(interfaces), d.value.outTypes);
    assert cx == Some(context) by { ContextIsDeclared(interfaces, env0, t.trigger, d.value); }
    var ok := CheckInContext(t, context);
    if ok.None? {
      return Fail(TypeFault);
    }
    RemoveArgsMeans(environment.AsEnv(), args);
    RemoveParameters(environment, args);
    assert map[] + ArgTable(args) - ArgTable(args).Keys == map[];
    r := Ok(ok.value);
  }

  lemma ContextIsDeclared(interfaces: seq<Interface>, env0: Env, trigger: Trigger, d: Method)
    requires env0.locals == map[] && DeclareArgs(env0, d.inArgs).Ok?
    requires DeclarationOf(interfaces, trigger) == Some(d)
    ensures ContextFor(Program(0, [], interfaces, env0), trigger) ==
      Some(Context(DeclareArgs(env0, d.inArgs).value, DeclaredSignals(interfaces), d.outTypes))
  {
    DeclareArgsMeans(env0, d.inArgs);
    assert map[] + ArgTable(d.inArgs) == ArgTable(d.inArgs);
    if trigger.PropertySet? {
      assert d.inArgs[1..] == [] && ArgTable([]) == map[];
    }
  }
}
