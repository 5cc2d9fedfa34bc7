/**
 Why a call must be declared as it was checked: transitions are checked against the first interface that
 declares their method, and a call through another interface may bring parameters of other types.
 */
module Mismatch {
  import opened Results
  import opened VariantTypes
  import opened Language
  import opened Evaluator
  import opened Statements
  import opened Transitions
  import opened Scanning
  import opened Machines

  function Declaring(name: string, t: Ty): Interface {
    Interface(name, map["M" := Method([Arg("x", t)], [])], map[], map[])
  }

  const ITS_ARGUMENT: Expr := Data(0, None, LVariable(Local, "x"))

  /** A method that throws an error, if its argument holds. */
  const PICKY: Arc := Arc(0, 0, Transition(MethodCall("M"), [Precondition(None, ITS_ARGUMENT)], [Throw("Error")]))

  /** One interface declares the method with a boolean, the other with a string. */
  const TWOFOLD: Program :=
    Program(1, [PICKY], [Declaring("A", TBool), Declaring("B", TString)], Env(map[], map[]))

  const CHECKED_AGAINST: Env := Env(map["x" := Variable(TBool, None)], map[])

  lemma TwofoldContext()
    ensures ContextFor(TWOFOLD, MethodCall("M")) == Some(Context(CHECKED_AGAINST, map[], []))
  {
    var args := [Arg("x", TBool)];
    assert args[1..] == [] && ArgTable([]) == map[] && ArgTable(args) == CHECKED_AGAINST.locals;
    NoSignals(TWOFOLD.interfaces);
  }

  lemma {:induction false} NoSignals(interfaces: seq<Interface>)
    requires forall i | 0 <= i < |interfaces| :: interfaces[i].signals == map[]
    ensures DeclaredSignals(interfaces) == map[]
  {
    if interfaces != [] {
      NoSignals(interfaces[1..]);
      assert map[] + interfaces[0].signals == map[];
    }
  }

  lemma PickyIsReady()
    ensures AcceptedTransition(PICKY.transition, Context(CHECKED_AGAINST, map[], []))
    ensures GuardedTransition(PICKY.transition, Context(CHECKED_AGAINST, map[], []))
  {
    var ss := PICKY.transition.statements;
    assert CheckLiteral(ITS_ARGUMENT.lit, CHECKED_AGAINST) == Some(TBool);
    assert ss[..0] == [] && ResponseCount(ss) == 1;
  }

  lemma TwofoldInterfaces()
    ensures IntrospectedInterface(Declaring("A", TBool)) && IntrospectedInterface(Declaring("B", TString))
    ensures DistinctInterfaces([Declaring("A", TBool), Declaring("B", TString)])
  {
    assert "A"[0] != "B"[0];
    assert DBusType(TTuple([]));
  }

  /** The program passes all checks, and the guard that the checker lacks. */
  lemma TwofoldIsReady()
    ensures ReadyProgram(TWOFOLD)
  {
    hide AcceptedTransition, GuardedTransition, ContextFor, IntrospectedInterface, DistinctInterfaces;
    TwofoldContext();
    PickyIsReady();
    TwofoldInterfaces();
  }

  const BOUND: Env := Env(map["x" := Variable(TString, Some(VString("")))], map[])

  lemma BindsString()
    ensures BindArgs(Env(map[], map[]), [Arg("x", TString)], [VString("")]) == Ok(BOUND)
  {
    var args, vs := [Arg("x", TString)], [VString("")];
    var env := Env(map[], map[]);
    assert args[1..] == [] && vs[1..] == [];
    var declared := Env(map["x" := Variable(TString, None)], map[]);
    assert DeclareVariable(env, Local, "x", TString) == Ok(declared);
    assert declared.locals["x" := Variable(TString, Some(VString("")))] == BOUND.locals;
    assert SetVariable(declared, Local, "x", VString("")) == Ok(BOUND);
    assert BindArgs(BOUND, [], []) == Ok(BOUND);
  }

  lemma MismatchFails(a: Attempt, st: Fuzz)
    requires a.bucket == [PICKY] && a.state == 0 && a.permits(0) && a.env == BOUND
    ensures FindAndExecute(a, st) == Fail(TypeFault)
  {
    var st1 := st.Advance();
    assert CheckLiteral(ITS_ARGUMENT.lit, a.env) == Some(TString);
    assert Check(ITS_ARGUMENT, a.env) == Some(TString);
    assert Eval(ITS_ARGUMENT, a.env, st1) == Out(Ok(VString("")), st1);
    assert st.Range(0, 1) == 0 && At(1, 0, 0) == 0;
    assert Classify(a, 0, st1) == Fail(TypeFault);
    assert Visit(a, 0, 0, st1) == Fail(TypeFault);
  }

  /**
   A call through the second of two interfaces that declare the method differently meets a type fault, though
   the program is accepted and guarded and the parameters are of the types that interface declares.
   */
  lemma SecondDeclarationFails(st0: Fuzz, e: Event)
    requires e.action == Action.Call("B", "M", [VString("")]) && e.permits(0)
    ensures ReadyProgram(TWOFOLD)
    ensures Step(TWOFOLD, Start(TWOFOLD, st0), e) == Fail(TypeFault)
  {
    hide ReadyProgram, FindAndExecute, BindArgs;
    TwofoldIsReady();
    BindsString();
    var p := TWOFOLD;
    assert p.arcs[..0] == [] && [] + [PICKY] == [PICKY];
    assert Bucket(p.arcs, MethodCall("M")) == [PICKY];
    assert "A"[0] != "B"[0];
    assert p.interfaces[1..] == [Declaring("B", TString)];
    assert FindInterface([Declaring("B", TString)], "B") == Some(Declaring("B", TString));
    assert FindInterface(p.interfaces, "B") == Some(Declaring("B", TString));
    MismatchFails(Attempt([PICKY], 0, BOUND, e.enable, e.permits, p.rule), st0.(tape := e.tape, pos := 0));
  }
}
