/**
 The simulator as it runs: a machine that updates its state, its environment and the output sequence of
 each step in place. Every method is proved equal to the corresponding function on configurations.
 */
module Simulator {
  import opened Results
  import opened VariantTypes
  import opened Language
  import opened Evaluator
  import opened Statements
  import opened Environments
  import opened OutputSequences

  // ----- statements -------------------------------------------------------------------------------

  /** dfsm_ast_data_structure_set_from_variant(): store a value in place, part by part. */
  method SetFromVariant(environment: Environment, target: Expr, v: Value) returns (fault: Option<Fault>)
    requires environment.Valid()
    modifies CellSet(environment.localVariables), CellSet(environment.objectVariables)
    ensures environment.Valid() && environment.SavedEnv() == old(environment.SavedEnv())
    ensures match SetFrom(target, old(environment.AsEnv()), v)
      case Ok(env) => fault.None? && environment.AsEnv() == env
      case Fail(f) => fault == Some(f)
    decreases target, 1
  {
    hide CellSet, Contents, Separated, SetVariable, SetAll;
    if !target.Data? {
      return Some(TypeFault);
    }
    assert SetFrom(target, environment.AsEnv(), v) == SetLiteral(target.lit, environment.AsEnv(), v);
    match target.lit {
      case LArray(items) => fault := SetChildren(environment, items, Children(v));
      case LStruct(items) => fault := SetChildren(environment, items, Children(v));
      case LVariable(scope, name) =>
        fault := environment.SetVariableValue(scope, name, v);
      case _ => fault := Some(TypeFault);
    }
  }

  method SetChildren(environment: Environment, targets: seq<Expr>, vs: seq<Value>) returns (fault: Option<Fault>)
    requires environment.Valid()
    modifies CellSet(environment.localVariables), CellSet(environment.objectVariables)
    ensures environment.Valid() && environment.SavedEnv() == old(environment.SavedEnv())
    ensures match SetAll(targets, old(environment.AsEnv()), vs)
      case Ok(env) => fault.None? && environment.AsEnv() == env
      case Fail(f) => fault == Some(f)
    decreases targets, 0
  {
    hide Contents, Separated, SetFrom;
    ghost var env0 := environment.AsEnv();
    fault := None;
    var i := 0;
    while i < |targets|
      invariant 0 <= i <= |targets| && i <= |vs|
      invariant environment.Valid() && environment.SavedEnv() == old(environment.SavedEnv())
      invariant SetAll(targets, env0, vs) == SetAll(targets[i..], environment.AsEnv(), vs[i..])
    {
      assert targets[i..][1..] == targets[i + 1..];
      if i == |vs| {
        return Some(TypeFault);
      }
      assert vs[i..][1..] == vs[i + 1..];
      fault := SetFromVariant(environment, targets[i], vs[i]);
      if fault.Some? {
        return;
      }
      i := i + 1;
    }
    fault := None;
  }

  /** dfsm_ast_statement_execute(), for each kind of statement. */
  method ExecuteStatement(environment: Environment, s: Statement, st: Fuzz, output: OutputSequence)
    returns (r: Result<Fuzz>)
    requires environment.Valid()
    modifies CellSet(environment.localVariables), CellSet(environment.objectVariables), output
    ensures environment.Valid() && environment.SavedEnv() == old(environment.SavedEnv())
    ensures match ExecStatement(s, old(environment.AsEnv()), st)
      case Ok(e) => r == Ok(e.st) && environment.AsEnv() == e.env && output.queue == old(output.queue) + e.out
      case Fail(f) => r == Fail(f)
  {
    hide Contents, Separated, SetFrom, Eval;
    match s {
      case Assign(target, rvalue) =>
        var o := Eval(rvalue, environment.AsEnv(), st);
        if o.res.Fail? {
          return Fail(o.res.fault);
        }
        var fault := SetFromVariant(environment, target, o.res.value);
        assert output.queue == old(output.queue) + [];
        r := if fault.Some? then Fail(fault.value) else Ok(o.st);
      case Throw(error) =>
        output.Add(ThrowOut(error));
        r := Ok(st);
      case Emit(signal, params) =>
        var o := Eval(params, environment.AsEnv(), st);
        if o.res.Fail? {
          return Fail(o.res.fault);
        }
        output.Add(EmitOut(signal, o.res.value));
        r := Ok(o.st);
      case Reply(reply) =>
        var o := Eval(reply, environment.AsEnv(), st);
        if o.res.Fail? {
          return Fail(o.res.fault);
        }
        output.Add(ReplyOut(o.res.value));
        r := Ok(o.st);
    }
  }

  /** Statements fail as soon as a prefix of them does. */
  lemma {:induction false} PrefixFails(ss: seq<Statement>, i: nat, env: Env, st: Fuzz)
    requires i <= |ss| && ExecAll(ss[..i], env, st).Fail?
    ensures ExecAll(ss, env, st) == ExecAll(ss[..i], env, st)
    decreases |ss|
  {
    hide ExecStatement;
    if i == |ss| {
      assert ss[..i] == ss;
    } else {
      var init := ss[..|ss| - 1];
      assert init[..i] == ss[..i];
      PrefixFails(init, i, env, st);
    }
  }

  /** dfsm_ast_transition_execute(): the statements in order. */
  method ExecuteStatements(environment: Environment, ss: seq<Statement>, st: Fuzz, output: OutputSequence)
    returns (r: Result<Fuzz>)
    requires environment.Valid()
    modifies CellSet(environment.localVariables), CellSet(environment.objectVariables), output
    ensures environment.Valid() && environment.SavedEnv() == old(environment.SavedEnv())
    ensures match ExecAll(ss, old(environment.AsEnv()), st)
      case Ok(e) => r == Ok(e.st) && environment.AsEnv() == e.env && output.queue == old(output.queue) + e.out
      case Fail(f) => r == Fail(f)
  {
    hide Contents, Separated, ExecStatement;
    ghost var env0, q0 := environment.AsEnv(), output.queue;
    ghost var done: seq<Output> := [];
    var now := st;
    var i := 0;
    assert ss[..0] == [] && output.queue == q0 + [];
    while i < |ss|
      invariant 0 <= i <= |ss|
      invariant environment.Valid() && environment.SavedEnv() == old(environment.SavedEnv())
      invariant ExecAll(ss[..i], env0, st) == Ok(Effect(environment.AsEnv(), now, done))
      invariant output.queue == q0 + done
    {
      ghost var env1, q1, st1 := environment.AsEnv(), output.queue, now;
      ghost var e := ExecStatement(ss[i], env1, st1);
      assert ss[..i + 1][..i] == ss[..i];
      var x := ExecuteStatement(environment, ss[i], now, output);
      if x.Fail? {
        PrefixFails(ss, i + 1, env0, st);
        return Fail(x.fault);
      }
      now := x.value;
      done := done + e.value.out;
      assert q1 + e.value.out == q0 + done;
      i := i + 1;
    }
    assert ss[..|ss|] == ss;
    r := Ok(now);
  }
}
