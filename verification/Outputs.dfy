/**
 What statements output: one output for each statement that is not an assignment, in order and of its kind, with
 the value of its expression in the variables that the statements before it leave.
 */
module Outputs {
  import opened Results
  import opened Language
  import opened Evaluator
  import opened EffectFree
  import opened Statements

  /** The statements that output something. */
  function Speaking(ss: seq<Statement>): seq<Statement> {
    if ss == [] then [] else
      var last := ss[|ss| - 1];
      Speaking(ss[..|ss| - 1]) + if last.Assign? then [] else [last]
  }

  /** The output is of the statement's kind: its signal, its error, or a reply. */
  predicate Says(o: Output, s: Statement) {
    match s
    case Assign(_, _) => false
    case Throw(error) => o == ThrowOut(error)
    case Emit(signal, _) => o.EmitOut? && o.signal == signal
    case Reply(_) => o.ReplyOut?
  }

  /** And it carries the value of the statement's expression in these variables. */
  predicate SaysIn(o: Output, s: Statement, env: Env) {
    match s
    case Assign(_, _) => false
    case Throw(error) => o == ThrowOut(error)
    case Emit(signal, params) => o.EmitOut? && o.signal == signal && Plain(params, env) == Ok(o.params)
    case Reply(reply) => o.ReplyOut? && Plain(reply, env) == Ok(o.value)
  }

  /** Nothing in the statement is to be fuzzed. */
  predicate CalmStatement(s: Statement, st: Fuzz) {
    match s
    case Assign(_, rvalue) => Calm(rvalue, st)
    case Throw(_) => true
    case Emit(_, params) => Calm(params, st)
    case Reply(reply) => Calm(reply, st)
  }

  predicate CalmStatements(ss: seq<Statement>, st: Fuzz) {
    forall i | 0 <= i < |ss| :: CalmStatement(ss[i], st)
  }

  /** Outputs that correspond one to one, in order, to the statements that are not assignments. */
  predicate Corresponds(out: seq<Output>, ss: seq<Statement>) {
    |out| == |Speaking(ss)| && forall i | 0 <= i < |out| :: Says(out[i], Speaking(ss)[i])
  }

  lemma StatementSays(s: Statement, env: Env, st: Fuzz)
    requires ExecStatement(s, env, st).Ok?
    ensures var e := ExecStatement(s, env, st).value;
      if s.Assign? then e.out == [] else |e.out| == 1 && Says(e.out[0], s) && e.env == env
  {
    hide Eval, SetFrom;
  }

  /** Whatever is fuzzed, running statements outputs as many things, in the same order and of the same kinds. */
  lemma {:induction false} OutputsCorrespond(ss: seq<Statement>, env: Env, st: Fuzz)
    requires ExecAll(ss, env, st).Ok?
    ensures Corresponds(ExecAll(ss, env, st).value.out, ss)
    decreases |ss|
  {
    hide ExecStatement, Says;
    if ss != [] {
      var before := ExecAll(ss[..|ss| - 1], env, st).value;
      OutputsCorrespond(ss[..|ss| - 1], env, st);
      StatementSays(ss[|ss| - 1], before.env, before.st);
    }
  }

  /** The place of a statement's output among the outputs. */
  function PlaceOf(ss: seq<Statement>, j: nat): nat
    requires j <= |ss|
  {
    |Speaking(ss[..j])|
  }

  lemma {:induction false} SpeakingPrefix(ss: seq<Statement>, j: nat)
    requires j < |ss|
    ensures PlaceOf(ss, j + 1) == PlaceOf(ss, j) + (if ss[j].Assign? then 0 else 1)
    ensures PlaceOf(ss, j + 1) <= |Speaking(ss)|
    ensures !ss[j].Assign? ==> Speaking(ss)[PlaceOf(ss, j)] == ss[j]
    decreases |ss|
  {
    assert ss[..j + 1][..j] == ss[..j];
    if j == |ss| - 1 {
      assert ss[..j + 1] == ss;
    } else {
      var init := ss[..|ss| - 1];
      SpeakingPrefix(init, j);
      assert init[..j] == ss[..j] && init[..j + 1] == ss[..j + 1];
    }
  }

  /** The statements before a given one have run, and what they output comes first. */
  lemma {:induction false} PrefixRuns(ss: seq<Statement>, env: Env, st: Fuzz, j: nat)
    requires j <= |ss| && ExecAll(ss, env, st).Ok?
    ensures ExecAll(ss[..j], env, st).Ok?
    ensures ExecAll(ss[..j], env, st).value.out <= ExecAll(ss, env, st).value.out
    decreases |ss|
  {
    hide ExecStatement;
    if j == |ss| {
      assert ss[..j] == ss;
    } else {
      var init := ss[..|ss| - 1];
      PrefixRuns(init, env, st, j);
      assert init[..j] == ss[..j];
    }
  }

  /** The output of the statement carries the value of its expression in the variables left before it. */
  ghost predicate SaysAt(out: seq<Output>, ss: seq<Statement>, env: Env, j: nat)
    requires j < |ss|
  {
    && ExecAll(ss[..j], env, QUIET).Ok? && PlaceOf(ss, j) < |out|
    && SaysIn(out[PlaceOf(ss, j)], ss[j], ExecAll(ss[..j], env, QUIET).value.env)
  }

  /** Where nothing is fuzzed statements run as they do without fuzzing. */
  lemma {:induction false} CalmRun(ss: seq<Statement>, env: Env, st: Fuzz)
    requires CalmStatements(ss, st) && ExecAll(ss, env, st).Ok?
    ensures ExecAll(ss, env, st).value.st == st
    ensures ExecAll(ss, env, QUIET).Ok? && ExecAll(ss, env, QUIET).value == ExecAll(ss, env, st).value.(st := QUIET)
    decreases |ss|
  {
    hide CalmStatement, ExecStatement;
    if ss != [] {
      CalmRun(ss[..|ss| - 1], env, st);
      CalmStatementRuns(ss[|ss| - 1], ExecAll(ss[..|ss| - 1], env, st).value.env, st);
    }
  }

  lemma CalmStatementRuns(s: Statement, env: Env, st: Fuzz)
    requires CalmStatement(s, st) && ExecStatement(s, env, st).Ok?
    ensures ExecStatement(s, env, st).value.st == st
    ensures ExecStatement(s, env, QUIET).Ok?
    ensures ExecStatement(s, env, QUIET).value == ExecStatement(s, env, st).value.(st := QUIET)
    ensures !s.Assign? ==>
      |ExecStatement(s, env, st).value.out| == 1 && SaysIn(ExecStatement(s, env, st).value.out[0], s, env)
  {
    hide Eval, SetFrom, Calm;
    match s
    case Assign(_, rvalue) => CalmBoth(rvalue, env, st);
    case Throw(_) =>
    case Emit(_, params) => CalmBoth(params, env, st);
    case Reply(reply) => CalmBoth(reply, env, st);
  }

  lemma CalmBoth(e: Expr, env: Env, st: Fuzz)
    requires Calm(e, st)
    ensures Eval(e, env, st) == Out(Plain(e, env), st) && Eval(e, env, QUIET) == Out(Plain(e, env), QUIET)
  {
    CalmEval(e, env, st);
  }

  /**
   Where nothing is fuzzed every statement that is not an assignment outputs the value that its expression then has.
   */
  lemma OutputValues(ss: seq<Statement>, env: Env, st: Fuzz, j: nat)
    requires CalmStatements(ss, st) && ExecAll(ss, env, st).Ok? && j < |ss| && !ss[j].Assign?
    ensures SaysAt(ExecAll(ss, env, st).value.out, ss, env, j)
  {
    hide ExecStatement, CalmStatement, SaysIn;
    PrefixRuns(ss, env, st, j);
    PrefixRuns(ss, env, st, j + 1);
    assert ss[..j + 1][..j] == ss[..j] && ss[..j + 1][j] == ss[j];
    OutputsCorrespond(ss[..j], env, st);
    CalmRun(ss[..j], env, st);
    var before := ExecAll(ss[..j], env, st).value;
    CalmStatementRuns(ss[j], before.env, st);
    var after := ExecAll(ss[..j + 1], env, st).value;
    assert after.out == before.out + ExecStatement(ss[j], before.env, st).value.out;
  }
}
