/**
 Evaluation depends on what is drawn, not on where: two states with the same weights whose tapes agree on the
 draws that one of them takes give the same value and take as many draws.
 */
module Locality {
  import opened Results
  import opened VariantTypes
  import opened Language
  import opened Evaluator
  import opened EffectFree
  import opened Transitions

  // ----- states that look alike -------------------------------------------------------------------

  /** The i-th draw from here on. */
  function Ahead(st: Fuzz, i: nat): Draw {
    st.tape(st.pos + i)
  }

  ghost predicate Akin(st: Fuzz, st': Fuzz) {
    st'.enabled == st.enabled && SameWeights(st, st')
  }

  /** The same weights, and the same next n draws. */
  ghost predicate Alike(st: Fuzz, st': Fuzz, n: int) {
    Akin(st, st') && forall i: nat | i < n :: Ahead(st', i) == Ahead(st, i)
  }

  /** The same result after as many draws. */
  ghost predicate Lockstep<T(!new)>(st: Fuzz, st': Fuzz, o: Out<T>, o': Out<T>) {
    && o'.res == o.res
    && OnlyDraws(st, o.st) && OnlyDraws(st', o'.st)
    && o'.st.pos - st'.pos == o.st.pos - st.pos
  }

  lemma AlikeLess(st: Fuzz, st': Fuzz, n: int, m: int)
    requires Alike(st, st', n) && m <= n
    ensures Alike(st, st', m)
  {
  }

  /** What is alike stays so. */
  lemma AlikeAfter(st: Fuzz, st': Fuzz, a: Fuzz, a': Fuzz, n: int)
    requires Alike(st, st', n) && OnlyDraws(st, a) && OnlyDraws(st', a') && a'.pos - st'.pos == a.pos - st.pos
    ensures Alike(a, a', n - (a.pos - st.pos))
  {
    var k := a.pos - st.pos;
    forall i: nat | i < n - k ensures Ahead(a', i) == Ahead(a, i) {
      assert Ahead(st', k + i) == Ahead(st, k + i);
      assert st'.pos + (k + i) == a'.pos + i && st.pos + (k + i) == a.pos + i;
    }
    forall id: nat ensures a'.Weight(id) == a.Weight(id) {
      assert a'.Weight(id) == st'.Weight(id) && st'.Weight(id) == st.Weight(id) && a.Weight(id) == st.Weight(id);
    }
  }

  lemma AlikeAdvance(st: Fuzz, st': Fuzz, n: int)
    requires Alike(st, st', n)
    ensures n > 0 ==> st'.Peek() == st.Peek() && Alike(st.Advance(), st'.Advance(), n - 1)
    ensures forall id: nat :: st'.Fuzzes(id) == st.Fuzzes(id)
    ensures OnlyDraws(st, st.Advance()) && OnlyDraws(st', st'.Advance())
  {
    AlikeAfter(st, st', st.Advance(), st'.Advance(), n);
    if n > 0 { assert Ahead(st', 0) == Ahead(st, 0); }
    forall id: nat ensures st'.Fuzzes(id) == st.Fuzzes(id) { assert st'.Weight(id) == st.Weight(id); }
  }

  // ----- random choices ---------------------------------------------------------------------------

  lemma FuzzIntLocal(k: IntKind, default: int, st: Fuzz, st': Fuzz)
    requires Alike(st, st', FuzzInt(k, default, st).1.pos - st.pos)
    ensures FuzzInt(k, default, st').0 == FuzzInt(k, default, st).0
    ensures FuzzInt(k, default, st').1.pos - st'.pos == FuzzInt(k, default, st).1.pos - st.pos
  {
    hide Alike;
    var n := FuzzInt(k, default, st).1.pos - st.pos;
    AlikeAdvance(st, st', n);
    if n > 1 {
      AlikeAdvance(st.Advance(), st'.Advance(), n - 1);
      if n > 2 { AlikeAdvance(st.Advance().Advance(), st'.Advance().Advance(), n - 2); }
    }
  }

  lemma FuzzPathLocal(default: string, st: Fuzz, st': Fuzz)
    requires Alike(st, st', FuzzPath(default, st).1.pos - st.pos)
    ensures FuzzPath(default, st').0 == FuzzPath(default, st).0
    ensures FuzzPath(default, st').1.pos - st'.pos == FuzzPath(default, st).1.pos - st.pos
  {
    hide Alike, Decimal;
    var n := FuzzPath(default, st).1.pos - st.pos;
    AlikeAdvance(st, st', n);
    if n > 1 { AlikeAdvance(st.Advance(), st'.Advance(), n - 1); }
  }

  lemma FuzzSignatureLocal(default: Ty, st: Fuzz, st': Fuzz)
    requires Alike(st, st', FuzzSignature(default, st).1.pos - st.pos)
    ensures FuzzSignature(default, st').0 == FuzzSignature(default, st).0
    ensures FuzzSignature(default, st').1.pos - st'.pos == FuzzSignature(default, st).1.pos - st.pos
  {
    hide Alike, DBusType;
    var n := FuzzSignature(default, st).1.pos - st.pos;
    AlikeAdvance(st, st', n);
    if n > 1 { AlikeAdvance(st.Advance(), st'.Advance(), n - 1); }
  }

  lemma FuzzVariantLocal(default: Value, st: Fuzz, st': Fuzz)
    requires Alike(st, st', FuzzVariant(default, st).st.pos - st.pos)
    ensures Lockstep(st, st', FuzzVariant(default, st), FuzzVariant(default, st'))
  {
    hide Alike, FuzzInt, TypeOf;
    FuzzIntOnlyDraws(st);
    FuzzIntOnlyDraws(st');
    FuzzIntOnlyDraws(st.Advance());
    var n := FuzzVariant(default, st).st.pos - st.pos;
    AlikeAdvance(st, st', n);
    if st.Coin() {
      AlikeAdvance(st.Advance(), st'.Advance(), n - 1);
      if TypeOf(default) != TInt(UInt32) { FuzzIntLocal(UInt32, 0, st.Advance(), st'.Advance()); }
    }
  }

  // ----- expressions ------------------------------------------------------------------------------

  /** What follows the first of two evaluations is alike, if all that both draw is. */
  lemma Onward<T(!new), U>(st: Fuzz, st': Fuzz, first: Out<T>, first': Out<T>, last: Out<U>)
    requires Alike(st, st', last.st.pos - st.pos) && Lockstep(st, st', first, first')
    ensures Alike(first.st, first'.st, last.st.pos - first.st.pos)
  {
    AlikeAfter(st, st', first.st, first'.st, last.st.pos - st.pos);
  }

  lemma {:induction false} EvalLocal(e: Expr, env: Env, st: Fuzz, st': Fuzz)
    requires Alike(st, st', Eval(e, env, st).st.pos - st.pos)
    ensures Lockstep(st, st', Eval(e, env, st), Eval(e, env, st'))
    decreases e, 0
  {
    hide Alike, OnlyDraws, ApplyBinary;
    EvalOnlyDraws(e, env, st);
    EvalOnlyDraws(e, env, st');
    match e
    case Data(id, _, lit) => if Check(e, env).Some? { EvalLiteralLocal(id, Check(e, env).value, lit, env, st, st'); }
    case Not(c) => EvalLocal(c, env, st, st');
    case Binary(_, l, r) =>
      var left, left' := Eval(l, env, st), Eval(l, env, st');
      DrawsFurther(r, env, left.st);
      AlikeLess(st, st', Eval(e, env, st).st.pos - st.pos, left.st.pos - st.pos);
      EvalLocal(l, env, st, st');
      if left.res.Ok? {
        Onward(st, st', left, left', Eval(r, env, left.st));
        EvalLocal(r, env, left.st, left'.st);
      }
    case Call(fn, p) => EvalCallLocal(fn, p, env, st, st');
  }

  lemma DrawsFurther(e: Expr, env: Env, st: Fuzz)
    ensures Eval(e, env, st).st.pos >= st.pos
  {
    EvalOnlyDraws(e, env, st);
  }

  lemma {:induction false} EvalCallLocal(fn: Function, p: Expr, env: Env, st: Fuzz, st': Fuzz)
    requires Alike(st, st', Eval(Call(fn, p), env, st).st.pos - st.pos)
    ensures Lockstep(st, st', Eval(Call(fn, p), env, st), Eval(Call(fn, p), env, st'))
    decreases p, 3
  {
    hide Alike, OnlyDraws, ApplyFunction, FunctionType;
    var e := Call(fn, p);
    EvalOnlyDraws(e, env, st);
    EvalOnlyDraws(e, env, st');
    if Check(e, env).Some? {
      var params, params' := Eval(p, env, st), Eval(p, env, st');
      var pairs := fn.FPairKeys? && params.res.Ok? && Args(params.res.value, 2) && params.res.value.items[0].VArray?;
      if pairs { PairsFurther(p, params.res.value.items[0].items, env, params.st); }
      AlikeLess(st, st', Eval(e, env, st).st.pos - st.pos, params.st.pos - st.pos);
      EvalLocal(p, env, st, st');
      if pairs {
        var keys := params.res.value.items[0].items;
        Onward(st, st', params, params', EvalPairList(p, keys, env, params.st));
        EvalPairListLocal(p, keys, env, params.st, params'.st);
      }
    }
  }

  lemma PairsFurther(p: Expr, keys: seq<Value>, env: Env, st: Fuzz)
    ensures EvalPairList(p, keys, env, st).st.pos >= st.pos
  {
    PairsOnlyDraw(p, keys, env, st);
  }

  lemma {:induction false} EvalPairListLocal(p: Expr, keys: seq<Value>, env: Env, st: Fuzz, st': Fuzz)
    requires Alike(st, st', EvalPairList(p, keys, env, st).st.pos - st.pos)
    ensures Lockstep(st, st', EvalPairList(p, keys, env, st), EvalPairList(p, keys, env, st'))
    decreases p, 1, |keys|
  {
    hide Alike, OnlyDraws, Eval;
    PairsOnlyDraw(p, keys, env, st);
    PairsOnlyDraw(p, keys, env, st');
    if keys != [] {
      var params, params' := Eval(p, env, st), Eval(p, env, st');
      PairsFurther(p, keys[1..], env, params.st);
      AlikeLess(st, st', EvalPairList(p, keys, env, st).st.pos - st.pos, params.st.pos - st.pos);
      EvalLocal(p, env, st, st');
      if params.res.Ok? && Args(params.res.value, 2) {
        Onward(st, st', params, params', EvalPairList(p, keys[1..], env, params.st));
        EvalPairListLocal(p, keys[1..], env, params.st, params'.st);
      }
    }
  }

  lemma {:induction false} EvalLiteralLocal(id: nat, ty: Ty, lit: Literal, env: Env, st: Fuzz, st': Fuzz)
    requires Alike(st, st', EvalLiteral(id, ty, lit, env, st).st.pos - st.pos)
    ensures Lockstep(st, st', EvalLiteral(id, ty, lit, env, st), EvalLiteral(id, ty, lit, env, st'))
    decreases lit, 1
  {
    hide Alike, OnlyDraws, EvalLiteral;
    LiteralOnlyDraws(id, ty, lit, env, st);
    LiteralOnlyDraws(id, ty, lit, env, st');
    match lit
    case LArray(items) => EvalArrayLocal(id, ty, items, env, st, st');
    case LStruct(items) => EvalStructLocal(id, ty, items, env, st, st');
    case LVariant(inner) => EvalVariantLocal(id, ty, inner, env, st, st');
    case LDict(entries) => EvalDictLocal(id, ty, entries, env, st, st');
    case _ => EvalAtomLocal(id, ty, lit, env, st, st');
  }

  lemma {:induction false} EvalAtomLocal(id: nat, ty: Ty, lit: Literal, env: Env, st: Fuzz, st': Fuzz)
    requires Atom(lit)
    requires Alike(st, st', EvalLiteral(id, ty, lit, env, st).st.pos - st.pos)
    ensures EvalLiteral(id, ty, lit, env, st').res == EvalLiteral(id, ty, lit, env, st).res
    ensures EvalLiteral(id, ty, lit, env, st').st.pos - st'.pos == EvalLiteral(id, ty, lit, env, st).st.pos - st.pos
  {
    hide *;
    SameFuzzes(st, st', EvalLiteral(id, ty, lit, env, st).st.pos - st.pos, id);
    if st.Fuzzes(id) && PlainAtom(lit, env).Ok? && !lit.LVariable? {
      AtomDrawn(id, ty, lit, env, st);
      AtomDrawn(id, ty, lit, env, st');
      DrawnAtomLocal(lit, st, st');
    } else {
      AtomKept(id, ty, lit, env, st);
      AtomKept(id, ty, lit, env, st');
    }
  }

  lemma SameFuzzes(st: Fuzz, st': Fuzz, n: int, id: nat)
    requires Alike(st, st', n)
    ensures st'.Fuzzes(id) == st.Fuzzes(id)
  {
    hide Alike;
    AlikeAdvance(st, st', n);
  }

  /** A literal without children. */
  predicate Atom(lit: Literal) {
    !lit.LArray? && !lit.LStruct? && !lit.LVariant? && !lit.LDict?
  }

  /** What a literal without children stands for when it is not fuzzed. */
  function PlainAtom(lit: Literal, env: Env): Result<Value>
    requires Atom(lit)
  {
    match lit
    case LBool(b) => Ok(VBool(b))
    case LInt(k, n) => Ok(VInt(k, n))
    case LDouble(x) => Ok(VDouble(x))
    case LString(s) => Ok(VString(s))
    case LPath(p) => Ok(VPath(p))
    case LSignature(t) => if DBusType(t) then Ok(VSignature(t)) else Fail(TypeFault)
    case LVariable(scope, name) =>
      if name in env.Table(scope) && env.Table(scope)[name].value.Some?
      then Ok(env.Table(scope)[name].value.value) else Fail(BadVariable)
  }

  /** What is drawn for it when it is fuzzed, and the state after the draws. */
  function DrawnAtom(lit: Literal, st: Fuzz): (Value, Fuzz)
    requires Atom(lit) && !lit.LVariable?
  {
    match lit
    case LBool(b) => (VBool(if st.Coin() then b else !b), st.Advance())
    case LInt(k, n) => (VInt(k, FuzzInt(k, n, st).0), FuzzInt(k, n, st).1)
    case LDouble(_) => (VDouble(st.Peek().x), st.Advance())
    case LString(_) => (VString(st.Peek().text), st.Advance())
    case LPath(p) => (VPath(FuzzPath(p, st).0), FuzzPath(p, st).1)
    case LSignature(t) => (VSignature(FuzzSignature(t, st).0), FuzzSignature(t, st).1)
  }

  lemma AtomDrawn(id: nat, ty: Ty, lit: Literal, env: Env, st: Fuzz)
    requires Atom(lit) && !lit.LVariable? && st.Fuzzes(id) && PlainAtom(lit, env).Ok?
    ensures EvalLiteral(id, ty, lit, env, st) == Out(Ok(DrawnAtom(lit, st).0), DrawnAtom(lit, st).1)
  {
    hide FuzzInt, FuzzPath, FuzzSignature, DBusType;
  }

  lemma AtomKept(id: nat, ty: Ty, lit: Literal, env: Env, st: Fuzz)
    requires Atom(lit) && !(st.Fuzzes(id) && PlainAtom(lit, env).Ok? && !lit.LVariable?)
    ensures EvalLiteral(id, ty, lit, env, st) == Out(PlainAtom(lit, env), st)
  {
    hide FuzzInt, FuzzPath, FuzzSignature, DBusType;
  }

  lemma DrawnAtomLocal(lit: Literal, st: Fuzz, st': Fuzz)
    requires Atom(lit) && !lit.LVariable?
    requires Alike(st, st', DrawnAtom(lit, st).1.pos - st.pos)
    ensures DrawnAtom(lit, st').0 == DrawnAtom(lit, st).0
    ensures DrawnAtom(lit, st').1.pos - st'.pos == DrawnAtom(lit, st).1.pos - st.pos
  {
    hide Alike, FuzzInt, FuzzPath, FuzzSignature;
    AlikeAdvance(st, st', DrawnAtom(lit, st).1.pos - st.pos);
    match lit
    case LInt(k, n) => FuzzIntLocal(k, n, st, st');
    case LPath(path) => FuzzPathLocal(path, st, st');
    case LSignature(t) => FuzzSignatureLocal(t, st, st');
    case _ =>
  }

  /** Whether a container literal is emptied, and where its children's draws begin. */
  lemma ContainerStart(id: nat, st: Fuzz, st': Fuzz, n: int)
    requires Alike(st, st', n) && (st.Fuzzes(id) ==> n > 0)
    ensures st'.Fuzzes(id) == st.Fuzzes(id) && (st.Fuzzes(id) ==> st'.Coin() == st.Coin())
    ensures st.Fuzzes(id) ==> Alike(st.Advance(), st'.Advance(), n - 1)
  {
    hide Alike;
    AlikeAdvance(st, st', n);
  }

  lemma {:induction false} EvalArrayLocal(id: nat, ty: Ty, items: seq<Expr>, env: Env, st: Fuzz, st': Fuzz)
    requires Alike(st, st', EvalLiteral(id, ty, LArray(items), env, st).st.pos - st.pos)
    ensures EvalLiteral(id, ty, LArray(items), env, st').res == EvalLiteral(id, ty, LArray(items), env, st).res
    ensures EvalLiteral(id, ty, LArray(items), env, st').st.pos - st'.pos ==
      EvalLiteral(id, ty, LArray(items), env, st).st.pos - st.pos
    decreases items, 1
  {
    hide Alike, OnlyDraws, EvalElements;
    if ty.TArray? {
      var st0 := if st.Fuzzes(id) then st.Advance() else st;
      ElementsFurther(id, ty.elem, items, env, st0);
      ContainerStart(id, st, st', EvalLiteral(id, ty, LArray(items), env, st).st.pos - st.pos);
      if !(st.Fuzzes(id) && !st.Coin()) {
        var st0' := if st.Fuzzes(id) then st'.Advance() else st';
        EvalElementsLocal(id, ty.elem, items, env, st0, st0');
      }
    }
  }

  lemma ElementsFurther(id: nat, elem: Ty, es: seq<Expr>, env: Env, st: Fuzz)
    ensures EvalElements(id, elem, es, env, st).st.pos >= st.pos
  {
    ElementsOnlyDraw(id, elem, es, env, st);
  }

  lemma {:induction false} EvalStructLocal(id: nat, ty: Ty, items: seq<Expr>, env: Env, st: Fuzz, st': Fuzz)
    requires Alike(st, st', EvalLiteral(id, ty, LStruct(items), env, st).st.pos - st.pos)
    ensures EvalLiteral(id, ty, LStruct(items), env, st').res == EvalLiteral(id, ty, LStruct(items), env, st).res
    ensures EvalLiteral(id, ty, LStruct(items), env, st').st.pos - st'.pos ==
      EvalLiteral(id, ty, LStruct(items), env, st).st.pos - st.pos
    decreases items, 1
  {
    hide Alike, OnlyDraws, EvalAll;
    EvalAllLocal(items, env, st, st');
  }

  lemma {:induction false} EvalVariantLocal(id: nat, ty: Ty, inner: Expr, env: Env, st: Fuzz, st': Fuzz)
    requires Alike(st, st', EvalLiteral(id, ty, LVariant(inner), env, st).st.pos - st.pos)
    ensures EvalLiteral(id, ty, LVariant(inner), env, st').res == EvalLiteral(id, ty, LVariant(inner), env, st).res
    ensures EvalLiteral(id, ty, LVariant(inner), env, st').st.pos - st'.pos ==
      EvalLiteral(id, ty, LVariant(inner), env, st).st.pos - st.pos
    decreases inner, 1
  {
    hide Alike, OnlyDraws, Eval, FuzzVariant;
    var out, out' := Eval(inner, env, st), Eval(inner, env, st');
    var n := EvalLiteral(id, ty, LVariant(inner), env, st).st.pos - st.pos;
    if out.res.Ok? { VariantFurther(out.res.value, out.st); }
    AlikeLess(st, st', n, out.st.pos - st.pos);
    EvalLocal(inner, env, st, st');
    AlikeAfter(st, st', out.st, out'.st, n);
    AlikeAdvance(out.st, out'.st, n - (out.st.pos - st.pos));
    if out.res.Ok? && out.st.Fuzzes(id) { FuzzVariantLocal(out.res.value, out.st, out'.st); }
  }

  lemma VariantFurther(v: Value, st: Fuzz)
    ensures FuzzVariant(v, st).st.pos >= st.pos
  {
    FuzzIntOnlyDraws(st);
  }

  lemma {:induction false} EvalDictLocal(id: nat, ty: Ty, entries: seq<Entry>, env: Env, st: Fuzz, st': Fuzz)
    requires Alike(st, st', EvalLiteral(id, ty, LDict(entries), env, st).st.pos - st.pos)
    ensures EvalLiteral(id, ty, LDict(entries), env, st').res == EvalLiteral(id, ty, LDict(entries), env, st).res
    ensures EvalLiteral(id, ty, LDict(entries), env, st').st.pos - st'.pos ==
      EvalLiteral(id, ty, LDict(entries), env, st).st.pos - st.pos
    decreases entries, 1
  {
    hide Alike, OnlyDraws, EvalEntries;
    if ty.TArray? {
      var st0 := if st.Fuzzes(id) then st.Advance() else st;
      EntriesFurther(id, ty.elem, entries, env, st0);
      ContainerStart(id, st, st', EvalLiteral(id, ty, LDict(entries), env, st).st.pos - st.pos);
      if !(st.Fuzzes(id) && !st.Coin()) {
        var st0' := if st.Fuzzes(id) then st'.Advance() else st';
        EvalEntriesLocal(id, ty.elem, entries, env, st0, st0');
      }
    }
  }

  lemma EntriesFurther(id: nat, elem: Ty, es: seq<Entry>, env: Env, st: Fuzz)
    ensures EvalEntries(id, elem, es, env, st).st.pos >= st.pos
  {
    EntriesOnlyDraw(id, elem, es, env, st);
  }

  lemma {:induction false} EvalAllLocal(es: seq<Expr>, env: Env, st: Fuzz, st': Fuzz)
    requires Alike(st, st', EvalAll(es, env, st).st.pos - st.pos)
    ensures Lockstep(st, st', EvalAll(es, env, st), EvalAll(es, env, st'))
    decreases es, 0
  {
    hide Alike, OnlyDraws, Eval;
    AllOnlyDraw(es, env, st);
    AllOnlyDraw(es, env, st');
    if es != [] {
      var first, first' := Eval(es[0], env, st), Eval(es[0], env, st');
      AllFurther(es[1..], env, first.st);
      AlikeLess(st, st', EvalAll(es, env, st).st.pos - st.pos, first.st.pos - st.pos);
      EvalLocal(es[0], env, st, st');
      if first.res.Ok? {
        Onward(st, st', first, first', EvalAll(es[1..], env, first.st));
        EvalAllLocal(es[1..], env, first.st, first'.st);
      }
    }
  }

  lemma AllFurther(es: seq<Expr>, env: Env, st: Fuzz)
    ensures EvalAll(es, env, st).st.pos >= st.pos
  {
    AllOnlyDraw(es, env, st);
  }

  lemma {:induction false} FuzzCloneLocal(e: Expr, env: Env, st: Fuzz, st': Fuzz)
    requires e.Data? && Alike(st, st', FuzzClone(e, env, st).st.pos - st.pos)
    ensures Lockstep(st, st', FuzzClone(e, env, st), FuzzClone(e, env, st'))
    decreases e, 1
  {
    hide Alike, OnlyDraws, Eval;
    CloneOnlyDraws(e, env, st);
    CloneOnlyDraws(e, env, st');
    var before := st.Weight(e.id);
    var w := if before > 1.0 then before else 1.0;
    AlikeRaised(st, st', e.id, w, FuzzClone(e, env, st).st.pos - st.pos);
    EvalLocal(e, env, st.SetWeight(e.id, w), st'.SetWeight(e.id, w));
  }

  lemma AlikeRaised(st: Fuzz, st': Fuzz, id: nat, w: real, n: int)
    requires Alike(st, st', n)
    ensures Alike(st.SetWeight(id, w), st'.SetWeight(id, w), n) && st'.Weight(id) == st.Weight(id)
  {
    var a, a' := st.SetWeight(id, w), st'.SetWeight(id, w);
    forall i: nat ensures a'.Weight(i) == a.Weight(i) { assert st'.Weight(i) == st.Weight(i); }
    forall i: nat | i < n ensures Ahead(a', i) == Ahead(a, i) { assert Ahead(st', i) == Ahead(st, i); }
  }

  // ----- children of containers -------------------------------------------------------------------

  /** What is drawn of an element after its own value: whether it is doubled, and whether it is cloned. */
  function Multiplied(id: nat, e: Expr, env: Env, v: Value, st: Fuzz): Out<seq<Value>> {
    var (copies, st2) := if st.Fuzzes(id) then (if st.Coin() then [v, v] else [v], st.Advance()) else ([v], st);
    if st2.Fuzzes(id) && e.Data? then
      if st2.Coin() then
        var clone := FuzzClone(e, env, st2.Advance());
        if clone.res.Fail? then Out(Fail(clone.res.fault), clone.st) else Out(Ok(copies + [clone.res.value]), clone.st)
      else Out(Ok(copies), st2.Advance())
    else Out(Ok(copies), st2)
  }

  lemma MultipliedFurther(id: nat, e: Expr, env: Env, v: Value, st: Fuzz)
    ensures Multiplied(id, e, env, v, st).st.pos >= st.pos
  {
    var st2 := if st.Fuzzes(id) then st.Advance() else st;
    if e.Data? { CloneOnlyDraws(e, env, st2.Advance()); }
  }

  lemma {:induction false} MultipliedLocal(id: nat, e: Expr, env: Env, v: Value, st: Fuzz, st': Fuzz)
    requires Alike(st, st', Multiplied(id, e, env, v, st).st.pos - st.pos)
    ensures Multiplied(id, e, env, v, st').res == Multiplied(id, e, env, v, st).res
    ensures Multiplied(id, e, env, v, st').st.pos - st'.pos == Multiplied(id, e, env, v, st).st.pos - st.pos
    decreases e, 2
  {
    hide Alike, OnlyDraws, FuzzClone;
    var n := Multiplied(id, e, env, v, st).st.pos - st.pos;
    var st2 := if st.Fuzzes(id) then st.Advance() else st;
    var st2' := if st.Fuzzes(id) then st'.Advance() else st';
    if e.Data? { CloneFurther(e, env, st2.Advance()); }
    AlikeAdvance(st, st', n);
    assert st'.Fuzzes(id) == st.Fuzzes(id);
    var m := if st.Fuzzes(id) then n - 1 else n;
    AlikeAdvance(st2, st2', m);
    assert st2'.Fuzzes(id) == st2.Fuzzes(id);
    if st2.Fuzzes(id) && e.Data? && st2.Coin() { FuzzCloneLocal(e, env, st2.Advance(), st2'.Advance()); }
  }

  lemma CloneFurther(e: Expr, env: Env, st: Fuzz)
    requires e.Data?
    ensures FuzzClone(e, env, st).st.pos >= st.pos
  {
    CloneOnlyDraws(e, env, st);
  }

  lemma {:induction false} EvalElementLocal(id: nat, e: Expr, env: Env, st: Fuzz, st': Fuzz)
    requires Alike(st, st', EvalElement(id, e, env, st).st.pos - st.pos)
    ensures Lockstep(st, st', EvalElement(id, e, env, st), EvalElement(id, e, env, st'))
    decreases e, 3
  {
    hide Alike, OnlyDraws, Eval, Multiplied;
    ElementOnlyDraws(id, e, env, st);
    ElementOnlyDraws(id, e, env, st');
    var n := EvalElement(id, e, env, st).st.pos - st.pos;
    var st0 := if st.Fuzzes(id) then st.Advance() else st;
    var out := Eval(e, env, st0);
    DrawsFurther(e, env, st0);
    if out.res.Ok? { MultipliedFurther(id, e, env, out.res.value, out.st); }
    ElementParts(id, e, env, st);
    ElementParts(id, e, env, st');
    ContainerStart(id, st, st', n);
    if !(st.Fuzzes(id) && st.Coin()) {
      var st0' := if st.Fuzzes(id) then st'.Advance() else st';
      var m := n - (st0.pos - st.pos);
      AlikeLess(st0, st0', m, out.st.pos - st0.pos);
      EvalLocal(e, env, st0, st0');
      if out.res.Ok? {
        AlikeAfter(st0, st0', out.st, Eval(e, env, st0').st, m);
        MultipliedLocal(id, e, env, out.res.value, out.st, Eval(e, env, st0').st);
      }
    }
  }

  lemma ElementParts(id: nat, e: Expr, env: Env, st: Fuzz)
    ensures EvalElement(id, e, env, st) ==
      if st.Fuzzes(id) && st.Coin() then Out(Ok([]), st.Advance()) else
        var out := Eval(e, env, if st.Fuzzes(id) then st.Advance() else st);
        if out.res.Fail? then Out(Fail(out.res.fault), out.st) else Multiplied(id, e, env, out.res.value, out.st)
  {
    hide Eval, FuzzClone;
  }

  lemma {:induction false} EvalElementsLocal(id: nat, elem: Ty, es: seq<Expr>, env: Env, st: Fuzz, st': Fuzz)
    requires Alike(st, st', EvalElements(id, elem, es, env, st).st.pos - st.pos)
    ensures Lockstep(st, st', EvalElements(id, elem, es, env, st), EvalElements(id, elem, es, env, st'))
    decreases es, 0
  {
    hide Alike, OnlyDraws, EvalElement;
    ElementsOnlyDraw(id, elem, es, env, st);
    ElementsOnlyDraw(id, elem, es, env, st');
    if es != [] {
      var first, first' := EvalElement(id, es[0], env, st), EvalElement(id, es[0], env, st');
      ElementsFurther(id, elem, es[1..], env, first.st);
      AlikeLess(st, st', EvalElements(id, elem, es, env, st).st.pos - st.pos, first.st.pos - st.pos);
      EvalElementLocal(id, es[0], env, st, st');
      if first.res.Ok? && forall i | 0 <= i < |first.res.value| :: TypeOf(first.res.value[i]) == elem {
        Onward(st, st', first, first', EvalElements(id, elem, es[1..], env, first.st));
        EvalElementsLocal(id, elem, es[1..], env, first.st, first'.st);
      }
    }
  }

  lemma {:induction false} CloneEntryLocal(entry: Entry, v: Value, env: Env, st: Fuzz, st': Fuzz)
    requires entry.key.Data? && entry.val.Data?
    requires Alike(st, st', CloneEntry(entry, v, env, st).st.pos - st.pos)
    ensures Lockstep(st, st', CloneEntry(entry, v, env, st), CloneEntry(entry, v, env, st'))
    decreases entry, 0
  {
    hide Alike, OnlyDraws, FuzzClone;
    CloneEntryOnlyDraws(entry, v, env, st);
    CloneEntryOnlyDraws(entry, v, env, st');
    var n := CloneEntry(entry, v, env, st).st.pos - st.pos;
    var key, key' := FuzzClone(entry.key, env, st), FuzzClone(entry.key, env, st');
    CloneFurther(entry.val, env, key.st.Advance());
    AlikeLess(st, st', n, key.st.pos - st.pos);
    FuzzCloneLocal(entry.key, env, st, st');
    if key.res.Ok? {
      AlikeAfter(st, st', key.st, key'.st, n);
      AlikeAdvance(key.st, key'.st, n - (key.st.pos - st.pos));
      if key.st.Coin() { FuzzCloneLocal(entry.val, env, key.st.Advance(), key'.st.Advance()); }
    }
  }

  /** What is drawn of an entry after its own key and value: whether it is cloned. */
  function Doubled(id: nat, entry: Entry, env: Env, k: Value, v: Value, st: Fuzz): Out<seq<Value>> {
    if st.Fuzzes(id) && entry.key.Data? && entry.val.Data? then
      if st.Coin() then
        var clone := CloneEntry(entry, v, env, st.Advance());
        if clone.res.Fail? then Out(Fail(clone.res.fault), clone.st)
        else Out(Ok([VEntry(k, v)] + [clone.res.value]), clone.st)
      else Out(Ok([VEntry(k, v)]), st.Advance())
    else Out(Ok([VEntry(k, v)]), st)
  }

  lemma DoubledFurther(id: nat, entry: Entry, env: Env, k: Value, v: Value, st: Fuzz)
    ensures Doubled(id, entry, env, k, v, st).st.pos >= st.pos
  {
    if entry.key.Data? && entry.val.Data? { CloneEntryOnlyDraws(entry, v, env, st.Advance()); }
  }

  lemma {:induction false} DoubledLocal(id: nat, entry: Entry, env: Env, k: Value, v: Value, st: Fuzz, st': Fuzz)
    requires Alike(st, st', Doubled(id, entry, env, k, v, st).st.pos - st.pos)
    ensures Doubled(id, entry, env, k, v, st').res == Doubled(id, entry, env, k, v, st).res
    ensures Doubled(id, entry, env, k, v, st').st.pos - st'.pos == Doubled(id, entry, env, k, v, st).st.pos - st.pos
    decreases entry, 1
  {
    hide Alike, OnlyDraws, CloneEntry;
    if entry.key.Data? && entry.val.Data? {
      CloneEntryFurther(entry, v, env, st.Advance());
      AlikeAdvance(st, st', Doubled(id, entry, env, k, v, st).st.pos - st.pos);
      assert st'.Fuzzes(id) == st.Fuzzes(id);
      if st.Fuzzes(id) && st.Coin() { CloneEntryLocal(entry, v, env, st.Advance(), st'.Advance()); }
    } else {
      AlikeAdvance(st, st', 0);
    }
  }

  lemma CloneEntryFurther(entry: Entry, v: Value, env: Env, st: Fuzz)
    requires entry.key.Data? && entry.val.Data?
    ensures CloneEntry(entry, v, env, st).st.pos >= st.pos
  {
    CloneEntryOnlyDraws(entry, v, env, st);
  }

  lemma EntryParts(id: nat, entry: Entry, env: Env, st: Fuzz)
    ensures EvalEntry(id, entry, env, st) ==
      if st.Fuzzes(id) && st.Coin() then Out(Ok([]), st.Advance()) else
        var key := Eval(entry.key, env, if st.Fuzzes(id) then st.Advance() else st);
        if key.res.Fail? then Out(Fail(key.res.fault), key.st) else
          var val := Eval(entry.val, env, key.st);
          if val.res.Fail? then Out(Fail(val.res.fault), val.st)
          else Doubled(id, entry, env, key.res.value, val.res.value, val.st)
  {
    hide Eval, CloneEntry;
  }

  lemma {:induction false} EvalEntryLocal(id: nat, entry: Entry, env: Env, st: Fuzz, st': Fuzz)
    requires Alike(st, st', EvalEntry(id, entry, env, st).st.pos - st.pos)
    ensures Lockstep(st, st', EvalEntry(id, entry, env, st), EvalEntry(id, entry, env, st'))
    decreases entry, 3
  {
    hide Alike, OnlyDraws, Eval, Doubled;
    EntryOnlyDraws(id, entry, env, st);
    EntryOnlyDraws(id, entry, env, st');
    EntryParts(id, entry, env, st);
    EntryParts(id, entry, env, st');
    var n := EvalEntry(id, entry, env, st).st.pos - st.pos;
    var st0 := if st.Fuzzes(id) then st.Advance() else st;
    var key := Eval(entry.key, env, st0);
    DrawsFurther(entry.key, env, st0);
    DrawsFurther(entry.val, env, key.st);
    var val := Eval(entry.val, env, key.st);
    if key.res.Ok? && val.res.Ok? { DoubledFurther(id, entry, env, key.res.value, val.res.value, val.st); }
    ContainerStart(id, st, st', n);
    if !(st.Fuzzes(id) && st.Coin()) {
      var st0' := if st.Fuzzes(id) then st'.Advance() else st';
      EntryPartsLocal(id, entry, env, st0, st0', n - (st0.pos - st.pos));
    }
  }

  lemma {:induction false} EntryPartsLocal(id: nat, entry: Entry, env: Env, st: Fuzz, st': Fuzz, n: int)
    requires Alike(st, st', n) && n >= Eval(entry.key, env, st).st.pos - st.pos
    requires var key := Eval(entry.key, env, st); key.res.Ok? ==>
      var val := Eval(entry.val, env, key.st);
      && n >= val.st.pos - st.pos
      && (val.res.Ok? ==> n >= Doubled(id, entry, env, key.res.value, val.res.value, val.st).st.pos - st.pos)
    ensures var key, key' := Eval(entry.key, env, st), Eval(entry.key, env, st');
      Lockstep(st, st', key, key') && (key.res.Ok? ==>
        var val, val' := Eval(entry.val, env, key.st), Eval(entry.val, env, key'.st);
        Lockstep(key.st, key'.st, val, val') && (val.res.Ok? ==>
          var d := Doubled(id, entry, env, key.res.value, val.res.value, val.st);
          var d' := Doubled(id, entry, env, key.res.value, val.res.value, val'.st);
          d'.res == d.res && d'.st.pos - val'.st.pos == d.st.pos - val.st.pos))
    decreases entry, 2
  {
    hide Alike, OnlyDraws, Eval, Doubled;
    var key, key' := Eval(entry.key, env, st), Eval(entry.key, env, st');
    AlikeLess(st, st', n, key.st.pos - st.pos);
    EvalLocal(entry.key, env, st, st');
    if key.res.Ok? {
      var val, val' := Eval(entry.val, env, key.st), Eval(entry.val, env, key'.st);
      var m := n - (key.st.pos - st.pos);
      AlikeAfter(st, st', key.st, key'.st, n);
      AlikeLess(key.st, key'.st, m, val.st.pos - key.st.pos);
      EvalLocal(entry.val, env, key.st, key'.st);
      if val.res.Ok? {
        AlikeAfter(key.st, key'.st, val.st, val'.st, m);
        var d := Doubled(id, entry, env, key.res.value, val.res.value, val.st);
        AlikeLess(val.st, val'.st, m - (val.st.pos - key.st.pos), d.st.pos - val.st.pos);
        DoubledLocal(id, entry, env, key.res.value, val.res.value, val.st, val'.st);
      }
    }
  }

  lemma {:induction false} EvalEntriesLocal(id: nat, elem: Ty, es: seq<Entry>, env: Env, st: Fuzz, st': Fuzz)
    requires Alike(st, st', EvalEntries(id, elem, es, env, st).st.pos - st.pos)
    ensures Lockstep(st, st', EvalEntries(id, elem, es, env, st), EvalEntries(id, elem, es, env, st'))
    decreases es, 0
  {
    hide Alike, OnlyDraws, EvalEntry, IsEntryOf;
    EntriesOnlyDraw(id, elem, es, env, st);
    EntriesOnlyDraw(id, elem, es, env, st');
    if es != [] {
      var first, first' := EvalEntry(id, es[0], env, st), EvalEntry(id, es[0], env, st');
      EntriesFurther(id, elem, es[1..], env, first.st);
      AlikeLess(st, st', EvalEntries(id, elem, es, env, st).st.pos - st.pos, first.st.pos - st.pos);
      EvalEntryLocal(id, es[0], env, st, st');
      if first.res.Ok? && forall i | 0 <= i < |first.res.value| :: IsEntryOf(first.res.value[i], elem) {
        Onward(st, st', first, first', EvalEntries(id, elem, es[1..], env, first.st));
        EvalEntriesLocal(id, elem, es[1..], env, first.st, first'.st);
      }
    }
  }

  // ----- preconditions ----------------------------------------------------------------------------

  /** So does checking preconditions. */
  lemma {:induction false} CheckLocal(ps: seq<Precondition>, env: Env, st: Fuzz, st': Fuzz)
    requires CheckPreconditions(ps, env, st).Ok?
    requires Alike(st, st', CheckPreconditions(ps, env, st).value.st.pos - st.pos)
    ensures CheckPreconditions(ps, env, st').Ok?
    ensures var c, c' := CheckPreconditions(ps, env, st).value, CheckPreconditions(ps, env, st').value;
      c'.verdict == c.verdict && c'.st.pos - st'.pos == c.st.pos - st.pos
    decreases |ps|
  {
    hide Alike, OnlyDraws, Eval;
    if ps != [] {
      var out, out' := Eval(ps[0].condition, env, st), Eval(ps[0].condition, env, st');
      var n := CheckPreconditions(ps, env, st).value.st.pos - st.pos;
      if out.res.value.b { ChecksFurther(ps[1..], env, out.st); }
      AlikeLess(st, st', n, out.st.pos - st.pos);
      EvalLocal(ps[0].condition, env, st, st');
      if out.res.value.b {
        AlikeAfter(st, st', out.st, out'.st, n);
        CheckLocal(ps[1..], env, out.st, out'.st);
      }
    }
  }

  lemma ChecksFurther(ps: seq<Precondition>, env: Env, st: Fuzz)
    requires CheckPreconditions(ps, env, st).Ok?
    ensures CheckPreconditions(ps, env, st).value.st.pos >= st.pos
  {
    CheckingOnlyDraws(ps, env, st);
  }
}
