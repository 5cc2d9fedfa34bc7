/**
 The statements of a transition, and the assignment of values to structured left-hand sides.
 */
module Statements {
  import opened Results
  import opened VariantTypes
  import opened Language
  import opened Evaluator

  datatype Statement =
    | Assign(target: Expr, rvalue: Expr)
    | Throw(error: string)
    | Emit(signal: string, params: Expr)
    | Reply(reply: Expr)

  /** An entry of an output sequence. */
  datatype Output =
    | ReplyOut(value: Value)
    | ThrowOut(error: string)
    | EmitOut(signal: string, params: Value)

  // ----- writing variables ------------------------------------------------------------------------

  /** dfsm_environment_set_variable_type(), whose assertion is that the variable is new. */
  function DeclareVariable(env: Env, scope: Scope, name: string, ty: Ty): Result<Env> {
    var table := env.Table(scope);
    if name in table then Fail(BadVariable) else Ok(env.With(scope, table[name := Variable(ty, None)]))
  }

  /** dfsm_environment_unset_variable_value(). */
  function RemoveVariable(env: Env, scope: Scope, name: string): Env {
    env.With(scope, env.Table(scope) - {name})
  }

  /** dfsm_environment_set_variable_value(), whose assertions are the two faults. */
  function SetVariable(env: Env, scope: Scope, name: string, v: Value): Result<Env> {
    var table := env.Table(scope);
    if name !in table then Fail(BadVariable)
    else if !Subtype(TypeOf(v), table[name].ty) then Fail(TypeFault)
    else Ok(env.With(scope, table[name := Variable(table[name].ty, Some(v))]))
  }

  /** The children of a container value. */
  function Children(v: Value): seq<Value> {
    match v
    case VArray(_, items) => items
    case VTuple(items) => items
    case VEntry(k, w) => [k, w]
    case VVariant(inner) => [inner]
    case _ => []
  }

  /** dfsm_ast_data_structure_set_from_variant(), except for dictionary targets. */
  function SetFrom(target: Expr, env: Env, v: Value): Result<Env>
    decreases target
  {
    match target
    case Data(_, _, lit) => SetLiteral(lit, env, v)
    case _ => Fail(TypeFault)
  }

  function SetLiteral(lit: Literal, env: Env, v: Value): Result<Env>
    decreases lit
  {
    match lit
    case LArray(items) => SetAll(items, env, Children(v))
    case LStruct(items) => SetAll(items, env, Children(v))
    case LVariable(scope, name) => SetVariable(env, scope, name, v)
    case _ => Fail(TypeFault)
  }

  /** Assign child by child; a target with more children than the value reads past its end. */
  function SetAll(targets: seq<Expr>, env: Env, vs: seq<Value>): Result<Env>
    decreases targets
  {
    if targets == [] then Ok(env)
    else if vs == [] then Fail(TypeFault)
    else
      var env' :- SetFrom(targets[0], env, vs[0]);
      SetAll(targets[1..], env', vs[1..])
  }

  /** dfsm_ast_data_structure_is_variable(): only variables at the leaves. */
  predicate IsVariable(e: Expr) {
    match e
    case Data(_, _, lit) => IsVariableLiteral(lit)
    case _ => false
  }

  predicate IsVariableLiteral(lit: Literal) {
    match lit
    case LArray(items) => forall i | 0 <= i < |items| :: IsVariable(items[i])
    case LStruct(items) => forall i | 0 <= i < |items| :: IsVariable(items[i])
    case LDict(entries) => forall i | 0 <= i < |entries| :: IsVariable(entries[i].val)
    case LVariable(_, _) => true
    case _ => false
  }

  // ----- executing statements ---------------------------------------------------------------------

  /** What executing statements has done so far. */
  datatype Effect = Effect(env: Env, st: Fuzz, out: seq<Output>)

  function ExecStatement(s: Statement, env: Env, st: Fuzz): Result<Effect> {
    match s
    case Assign(target, rvalue) =>
      var r := Eval(rvalue, env, st);
      var v :- r.res;
      var env' :- SetFrom(target, env, v);
      Ok(Effect(env', r.st, []))
    case Throw(error) => Ok(Effect(env, st, [ThrowOut(error)]))
    case Emit(signal, params) =>
      var r := Eval(params, env, st);
      var v :- r.res;
      Ok(Effect(env, r.st, [EmitOut(signal, v)]))
    case Reply(reply) =>
      var r := Eval(reply, env, st);
      var v :- r.res;
      Ok(Effect(env, r.st, [ReplyOut(v)]))
  }

  function ExecAll(ss: seq<Statement>, env: Env, st: Fuzz): Result<Effect> {
    if ss == [] then Ok(Effect(env, st, [])) else
      var before :- ExecAll(ss[..|ss| - 1], env, st);
      var last :- ExecStatement(ss[|ss| - 1], before.env, before.st);
      Ok(Effect(last.env, last.st, before.out + last.out))
  }

  // ----- checking statements ----------------------------------------------------------------------

  /** The types of the parameters of each signal, as found in the first interface that declares it. */
  type Signals = map<string, seq<Ty>>

  predicate CheckStatement(s: Statement, env: Env, signals: Signals) {
    match s
    case Assign(target, rvalue) =>
      && target.Data? && Parsed(target) && Parsed(rvalue) && IsVariable(target)
      && Check(target, env).Some? && Check(rvalue, env).Some?
      && Subtype(Check(rvalue, env).value, Check(target, env).value)
    case Throw(_) => true
    case Emit(signal, params) =>
      && Parsed(params) && Check(params, env).Some?
      && signal in signals && Subtype(Check(params, env).value, TTuple(signals[signal]))
    case Reply(reply) => Parsed(reply) && Check(reply, env).Some?
  }

  /** Targets whose shape their type settles: structs of variables, but not arrays or dictionaries. */
  predicate StructTarget(e: Expr) {
    match e
    case Data(_, _, lit) => (
      match lit
      case LStruct(items) => forall i | 0 <= i < |items| :: StructTarget(items[i])
      case LVariable(_, _) => true
      case _ => false)
    case _ => false
  }

  /** What the checker ought to have tested of a statement. */
  predicate GuardedStatement(s: Statement, env: Env) {
    match s
    case Assign(target, rvalue) => StructTarget(target) && Guarded(rvalue, env)
    case Throw(_) => true
    case Emit(_, params) => Guarded(params, env)
    case Reply(reply) => Guarded(reply, env)
  }

  predicate TameStatement(s: Statement, env: Env, fs: set<Fault>) {
    match s
    case Assign(_, rvalue) => Tame(rvalue, env, fs)
    case Throw(_) => true
    case Emit(_, params) => Tame(params, env, fs)
    case Reply(reply) => Tame(reply, env, fs)
  }
}
