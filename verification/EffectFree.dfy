/**
 Evaluation is free of effects: it leaves every fuzzing weight as it was, and where nothing is to be
 fuzzed it draws nothing and gives a value that depends on the environment alone.
 */
module EffectFree {
  import opened Results
  import opened VariantTypes
  import opened Language
  import opened Evaluator

  // ----- weights ----------------------------------------------------------------------------------

  /** Nothing but the position on the tape has moved. */
  ghost predicate OnlyDraws(st: Fuzz, st': Fuzz) {
    && st'.enabled == st.enabled && st'.tape == st.tape
    && st'.pos >= st.pos
    && forall id: nat {:trigger st'.Weight(id)} :: st'.Weight(id) == st.Weight(id)
  }

  lemma Chain(a: Fuzz, b: Fuzz, c: Fuzz)
    requires OnlyDraws(a, b) && OnlyDraws(b, c)
    ensures OnlyDraws(a, c) && OnlyDraws(a, c.Advance())
  {
    forall id: nat ensures c.Weight(id) == a.Weight(id) {
      assert c.Weight(id) == b.Weight(id);
    }
  }

  lemma FuzzIntOnlyDraws(st: Fuzz)
    ensures forall k, n :: OnlyDraws(st, FuzzInt(k, n, st).1)
    ensures forall p :: OnlyDraws(st, FuzzPath(p, st).1)
    ensures forall t :: OnlyDraws(st, FuzzSignature(t, st).1)
    ensures forall v :: OnlyDraws(st, FuzzVariant(v, st).st)
  {
    forall v ensures OnlyDraws(st, FuzzVariant(v, st).st) {
      var st' := FuzzInt(UInt32, 0, st.Advance()).1;
      assert st'.weights == st.weights;
    }
  }

  /** Evaluation changes no weight, even though fuzzing a child raises its weight on the way. */
  lemma {:induction false} EvalOnlyDraws(e: Expr, env: Env, st: Fuzz)
    ensures OnlyDraws(st, Eval(e, env, st).st)
    decreases e, 0
  {
    match e
    case Data(id, _, lit) =>
      if Check(e, env).Some? { LiteralOnlyDraws(id, Check(e, env).value, lit, env, st); }
    case Not(c) => EvalOnlyDraws(c, env, st);
    case Binary(_, l, r) =>
      EvalOnlyDraws(l, env, st);
      EvalOnlyDraws(r, env, Eval(l, env, st).st);
    case Call(fn, p) =>
      EvalOnlyDraws(p, env, st);
      var params := Eval(p, env, st);
      if params.res.Ok? && Args(params.res.value, 2) && params.res.value.items[0].VArray? {
        PairsOnlyDraw(p, params.res.value.items[0].items, env, params.st);
      }
  }

  lemma {:induction false} PairsOnlyDraw(p: Expr, keys: seq<Value>, env: Env, st: Fuzz)
    ensures OnlyDraws(st, EvalPairList(p, keys, env, st).st)
    decreases p, 1, |keys|
  {
    if keys != [] {
      EvalOnlyDraws(p, env, st);
      PairsOnlyDraw(p, keys[1..], env, Eval(p, env, st).st);
    }
  }

  lemma {:induction false} LiteralOnlyDraws(id: nat, ty: Ty, lit: Literal, env: Env, st: Fuzz)
    ensures OnlyDraws(st, EvalLiteral(id, ty, lit, env, st).st)
    decreases lit, 0
  {
    hide Check, CheckLiteral;
    var st0 := if st.Fuzzes(id) then st.Advance() else st;
    match lit
    case LArray(items) => if ty.TArray? { ElementsOnlyDraw(id, ty.elem, items, env, st0); }
    case LStruct(items) => AllOnlyDraw(items, env, st);
    case LVariant(inner) =>
      EvalOnlyDraws(inner, env, st);
      FuzzIntOnlyDraws(Eval(inner, env, st).st);
    case LDict(entries) => if ty.TArray? { EntriesOnlyDraw(id, ty.elem, entries, env, st0); }
    case _ => FuzzIntOnlyDraws(st);
  }

  lemma {:induction false} AllOnlyDraw(es: seq<Expr>, env: Env, st: Fuzz)
    ensures OnlyDraws(st, EvalAll(es, env, st).st)
    decreases es, 0
  {
    if es != [] {
      EvalOnlyDraws(es[0], env, st);
      AllOnlyDraw(es[1..], env, Eval(es[0], env, st).st);
    }
  }

  lemma {:induction false} CloneOnlyDraws(e: Expr, env: Env, st: Fuzz)
    requires e.Data?
    ensures OnlyDraws(st, FuzzClone(e, env, st).st)
    decreases e, 1
  {
    var before := st.Weight(e.id);
    var raised := st.SetWeight(e.id, if before > 1.0 then before else 1.0);
    EvalOnlyDraws(e, env, raised);
    var out := Eval(e, env, raised);
    forall id: nat ensures FuzzClone(e, env, st).st.Weight(id) == st.Weight(id) {
      assert out.st.Weight(id) == raised.Weight(id);
    }
  }

  lemma {:induction false} ElementOnlyDraws(id: nat, e: Expr, env: Env, st: Fuzz)
    ensures OnlyDraws(st, EvalElement(id, e, env, st).st)
    decreases e, 2
  {
    var st0 := if st.Fuzzes(id) then st.Advance() else st;
    EvalOnlyDraws(e, env, st0);
    var out := Eval(e, env, st0);
    Chain(st, st0, out.st);
    if e.Data? {
      var st2 := if out.st.Fuzzes(id) then out.st.Advance() else out.st;
      CloneOnlyDraws(e, env, st2.Advance());
      Chain(st, out.st, st2);
      Chain(st, st2.Advance(), FuzzClone(e, env, st2.Advance()).st);
    }
  }

  lemma {:induction false} ElementsOnlyDraw(id: nat, elem: Ty, es: seq<Expr>, env: Env, st: Fuzz)
    ensures OnlyDraws(st, EvalElements(id, elem, es, env, st).st)
    decreases es, 0
  {
    if es != [] {
      ElementOnlyDraws(id, es[0], env, st);
      ElementsOnlyDraw(id, elem, es[1..], env, EvalElement(id, es[0], env, st).st);
    }
  }

  lemma {:induction false} CloneEntryOnlyDraws(entry: Entry, v: Value, env: Env, st: Fuzz)
    requires entry.key.Data? && entry.val.Data?
    ensures OnlyDraws(st, CloneEntry(entry, v, env, st).st)
    decreases entry, 0
  {
    CloneOnlyDraws(entry.key, env, st);
    var st1 := FuzzClone(entry.key, env, st).st;
    CloneOnlyDraws(entry.val, env, st1.Advance());
    Chain(st, st, st1);
    Chain(st, st1.Advance(), FuzzClone(entry.val, env, st1.Advance()).st);
  }

  lemma {:induction false} EntryOnlyDraws(id: nat, entry: Entry, env: Env, st: Fuzz)
    ensures OnlyDraws(st, EvalEntry(id, entry, env, st).st)
    decreases entry, 1
  {
    var st0 := if st.Fuzzes(id) then st.Advance() else st;
    EvalOnlyDraws(entry.key, env, st0);
    var key := Eval(entry.key, env, st0);
    EvalOnlyDraws(entry.val, env, key.st);
    var val := Eval(entry.val, env, key.st);
    Chain(st, st0, key.st);
    Chain(st, key.st, val.st);
    if val.res.Ok? && entry.key.Data? && entry.val.Data? {
      CloneEntryOnlyDraws(entry, val.res.value, env, val.st.Advance());
      Chain(st, val.st.Advance(), CloneEntry(entry, val.res.value, env, val.st.Advance()).st);
    }
  }

  lemma {:induction false} EntriesOnlyDraw(id: nat, elem: Ty, es: seq<Entry>, env: Env, st: Fuzz)
    ensures OnlyDraws(st, EvalEntries(id, elem, es, env, st).st)
    decreases es, 0
  {
    if es != [] {
      EntryOnlyDraws(id, es[0], env, st);
      EntriesOnlyDraw(id, elem, es[1..], env, EvalEntry(id, es[0], env, st).st);
    }
  }

  // ----- where nothing is fuzzed ------------------------------------------------------------------

  /** No node of the expression is to be fuzzed: fuzzing is off, or every weight is zero. */
  predicate Calm(e: Expr, st: Fuzz) {
    match e
    case Data(id, _, lit) => !st.Fuzzes(id) && CalmLiteral(lit, st)
    case Not(c) => Calm(c, st)
    case Binary(_, l, r) => Calm(l, st) && Calm(r, st)
    case Call(_, p) => Calm(p, st)
  }

  predicate CalmLiteral(lit: Literal, st: Fuzz) {
    match lit
    case LArray(items) => forall i | 0 <= i < |items| :: Calm(items[i], st)
    case LStruct(items) => forall i | 0 <= i < |items| :: Calm(items[i], st)
    case LVariant(inner) => Calm(inner, st)
    case LDict(entries) => forall i | 0 <= i < |entries| :: Calm(entries[i].key, st) && Calm(entries[i].val, st)
    case _ => true
  }

  lemma {:induction false} DisabledIsCalm(e: Expr, st: Fuzz)
    requires !st.enabled
    ensures Calm(e, st)
    decreases e
  {
    match e
    case Data(_, _, lit) => DisabledIsCalmLiteral(lit, st);
    case Not(c) => DisabledIsCalm(c, st);
    case Binary(_, l, r) => DisabledIsCalm(l, st); DisabledIsCalm(r, st);
    case Call(_, p) => DisabledIsCalm(p, st);
  }

  lemma {:induction false} DisabledIsCalmLiteral(lit: Literal, st: Fuzz)
    requires !st.enabled
    ensures CalmLiteral(lit, st)
    decreases lit
  {
    match lit
    case LArray(items) => forall i | 0 <= i < |items| ensures Calm(items[i], st) { DisabledIsCalm(items[i], st); }
    case LStruct(items) => forall i | 0 <= i < |items| ensures Calm(items[i], st) { DisabledIsCalm(items[i], st); }
    case LVariant(inner) => DisabledIsCalm(inner, st);
    case LDict(entries) =>
      forall i | 0 <= i < |entries| ensures Calm(entries[i].key, st) && Calm(entries[i].val, st) {
        DisabledIsCalm(entries[i].key, st);
        DisabledIsCalm(entries[i].val, st);
      }
    case _ =>
  }

  /** The state with fuzzing off; what its tape holds does not matter. */
  const QUIET: Fuzz := Fuzz(false, map[], (i: nat) => Draw(0, "", 0.0, TBool), 0)

  /** The value of an expression without fuzzing, a function of the environment alone. */
  function Plain(e: Expr, env: Env): Result<Value> {
    Eval(e, env, QUIET).res
  }

  /** An expression with nothing to fuzz evaluates to its plain value and leaves the state alone. */
  lemma {:induction false} CalmEval(e: Expr, env: Env, st: Fuzz)
    requires Calm(e, st)
    ensures Eval(e, env, st) == Out(Plain(e, env), st)
    ensures Eval(e, env, QUIET).st == QUIET
    decreases e, 0
  {
    hide CheckLiteral, FunctionType, ApplyFunction, ApplyBinary;
    match e
    case Data(id, _, lit) =>
      if Check(e, env).Some? { CalmEvalLiteral(id, Check(e, env).value, lit, env, st); }
    case Not(c) => CalmEval(c, env, st);
    case Binary(_, l, r) => CalmEval(l, env, st); CalmEval(r, env, st);
    case Call(fn, p) => CalmEvalCall(e, env, st);
  }

  lemma {:induction false} CalmEvalCall(e: Expr, env: Env, st: Fuzz)
    requires e.Call? && Calm(e, st)
    ensures Eval(e, env, st) == Out(Plain(e, env), st)
    ensures Eval(e, env, QUIET).st == QUIET
    decreases e.params, 2
  {
    hide CheckLiteral, FunctionType, ApplyFunction;
    var p := e.params;
    CalmEval(p, env, st);
    assert Eval(p, env, st) == Out(Eval(p, env, QUIET).res, st);
    var params := Eval(p, env, QUIET).res;
    if Check(e, env).Some? && params.Ok? && e.fn.FPairKeys? && Args(params.value, 2) && params.value.items[0].VArray? {
      var ret, keys := Check(e, env).value, params.value.items[0].items;
      CalmEvalPairs(p, keys, env, st);
      assert EvalPairs(p, ret, keys, env, st) == Out(EvalPairs(p, ret, keys, env, QUIET).res, st);
      assert Eval(e, env, st) == EvalPairs(p, ret, keys, env, st);
      assert Eval(e, env, QUIET) == EvalPairs(p, ret, keys, env, QUIET);
    }
  }

  lemma {:induction false} CalmEvalPairs(p: Expr, keys: seq<Value>, env: Env, st: Fuzz)
    requires Calm(p, st)
    ensures EvalPairList(p, keys, env, st) == Out(EvalPairList(p, keys, env, QUIET).res, st)
    ensures EvalPairList(p, keys, env, QUIET).st == QUIET
    decreases p, 1, |keys|
  {
    if keys != [] {
      CalmEval(p, env, st);
      CalmEvalPairs(p, keys[1..], env, st);
    }
  }

  lemma {:induction false} CalmEvalLiteral(id: nat, ty: Ty, lit: Literal, env: Env, st: Fuzz)
    requires !st.Fuzzes(id) && CalmLiteral(lit, st)
    ensures EvalLiteral(id, ty, lit, env, st) == Out(EvalLiteral(id, ty, lit, env, QUIET).res, st)
    ensures EvalLiteral(id, ty, lit, env, QUIET).st == QUIET
    decreases lit, 0
  {
    hide Check, CheckLiteral, FuzzInt, FuzzPath, FuzzSignature, FuzzVariant, DBusType;
    hide Eval, EvalAll, EvalElements, EvalEntries;
    match lit
    case LArray(items) => if ty.TArray? { CalmEvalElements(id, ty.elem, items, env, st); }
    case LStruct(items) => CalmEvalAll(items, env, st);
    case LVariant(inner) => CalmEval(inner, env, st);
    case LDict(entries) => if ty.TArray? { CalmEvalEntries(id, ty.elem, entries, env, st); }
    case _ =>
  }

  lemma {:induction false} CalmEvalAll(es: seq<Expr>, env: Env, st: Fuzz)
    requires forall i | 0 <= i < |es| :: Calm(es[i], st)
    ensures EvalAll(es, env, st) == Out(EvalAll(es, env, QUIET).res, st)
    ensures EvalAll(es, env, QUIET).st == QUIET
    decreases es, 0
  {
    if es != [] {
      CalmEval(es[0], env, st);
      CalmEvalAll(es[1..], env, st);
    }
  }

  lemma {:induction false} CalmEvalElements(id: nat, elem: Ty, es: seq<Expr>, env: Env, st: Fuzz)
    requires !st.Fuzzes(id) && forall i | 0 <= i < |es| :: Calm(es[i], st)
    ensures EvalElements(id, elem, es, env, st) == Out(EvalElements(id, elem, es, env, QUIET).res, st)
    ensures EvalElements(id, elem, es, env, QUIET).st == QUIET
    decreases es, 0
  {
    if es != [] {
      CalmEval(es[0], env, st);
      CalmEvalElements(id, elem, es[1..], env, st);
    }
  }

  lemma {:induction false} CalmEvalEntry(id: nat, entry: Entry, env: Env, st: Fuzz)
    requires !st.Fuzzes(id) && Calm(entry.key, st) && Calm(entry.val, st)
    ensures EvalEntry(id, entry, env, st) == Out(EvalEntry(id, entry, env, QUIET).res, st)
    ensures EvalEntry(id, entry, env, QUIET).st == QUIET
    decreases entry, 1
  {
    CalmEval(entry.key, env, st);
    CalmEval(entry.val, env, st);
  }

  lemma {:induction false} CalmEvalEntries(id: nat, elem: Ty, es: seq<Entry>, env: Env, st: Fuzz)
    requires !st.Fuzzes(id) && forall i | 0 <= i < |es| :: Calm(es[i].key, st) && Calm(es[i].val, st)
    ensures EvalEntries(id, elem, es, env, st) == Out(EvalEntries(id, elem, es, env, QUIET).res, st)
    ensures EvalEntries(id, elem, es, env, QUIET).st == QUIET
    decreases es, 0
  {
    if es != [] {
      CalmEvalEntry(id, es[0], env, st);
      CalmEvalEntries(id, elem, es[1..], env, st);
    }
  }

  /** With fuzzing off, the outcome is the same whatever the weights and the random numbers are. */
  lemma FuzzingOffIsDeterministic(e: Expr, env: Env, st: Fuzz, st': Fuzz)
    requires !st.enabled && !st'.enabled
    ensures Eval(e, env, st).res == Eval(e, env, st').res && Eval(e, env, st).st == st
  {
    DisabledIsCalm(e, st);
    DisabledIsCalm(e, st');
    CalmEval(e, env, st);
    CalmEval(e, env, st');
  }

  // ----- how much fuzzing can add -----------------------------------------------------------------

  /** Fuzzing at most triples an array literal. */
  lemma {:induction false} FuzzedArrayBound(id: nat, elem: Ty, es: seq<Expr>, env: Env, st: Fuzz)
    requires EvalElements(id, elem, es, env, st).res.Ok?
    ensures |EvalElements(id, elem, es, env, st).res.value| <= 3 * |es|
    decreases |es|
  {
    if es != [] {
      FuzzedArrayBound(id, elem, es[1..], env, EvalElement(id, es[0], env, st).st);
    }
  }

  /** Fuzzing at most doubles a dictionary literal. */
  lemma {:induction false} FuzzedDictBound(id: nat, elem: Ty, es: seq<Entry>, env: Env, st: Fuzz)
    requires EvalEntries(id, elem, es, env, st).res.Ok?
    ensures |EvalEntries(id, elem, es, env, st).res.value| <= 2 * |es|
    decreases |es|
  {
    if es != [] {
      FuzzedDictBound(id, elem, es[1..], env, EvalEntry(id, es[0], env, st).st);
    }
  }
}
