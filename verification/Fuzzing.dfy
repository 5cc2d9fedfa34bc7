/**
 Exactly which values an expression can have while it is fuzzed. This is said by a semantics that knows neither
 draws nor weights, only which nodes are to be fuzzed; some draws give a value just when it allows the value.
 */
module Fuzzing {
  import opened Results
  import opened VariantTypes
  import opened Language
  import opened Evaluator
  import opened EffectFree
  import opened Locality

  // ----- the semantics ----------------------------------------------------------------------------

  /** The integers that are drawn for one: of all types but one any number, of 64-bit signed numbers hardly any. */
  predicate MayDraw(k: IntKind, default: int, n: int) {
    || n == default
    || (if k.Int64? then n == MinOf(k) || n == MaxOf(k) || -5 <= n < UINT32_RANGE else InRange(k, n))
  }

  /** The path with a decimal number of one or two digits appended. */
  predicate MayExtend(path: string, p: string) {
    |path| < |p| && p[..|path|] == path && IsNumeral(p[|path|..])
  }

  predicate IsNumeral(s: string) {
    |s| > 0 && (|s| == 1 || (|s| == 2 && s[0] != '0')) && forall i | 0 <= i < |s| :: '0' <= s[i] <= '9'
  }

  /** The numeral of a number, read as a number. */
  function Read(s: string): (n: nat)
    requires IsNumeral(s)
    ensures n < 100
  {
    var last := (s[|s| - 1] - '0') as nat;
    if |s| == 1 then last else 10 * (s[0] - '0') as nat + last
  }

  lemma NumeralsRead(n: nat)
    requires n < 100
    ensures IsNumeral(Decimal(n)) && Read(Decimal(n)) == n
  {
  }

  lemma ReadNumerals(s: string)
    requires IsNumeral(s)
    ensures Decimal(Read(s)) == s
  {
  }

  /** What can be drawn for a literal without children. */
  predicate MayDrawAtom(lit: Literal, v: Value)
    requires Atom(lit)
  {
    match lit
    case LBool(_) => v.VBool?
    case LInt(k, n) => v.VInt? && v.kind == k && MayDraw(k, n, v.n)
    case LDouble(_) => v.VDouble?
    case LString(_) => v.VString?
    case LPath(p) => v.VPath? && (v.path == p || MayExtend(p, v.path))
    case LSignature(t) => v.VSignature? && (v.ty == t || DBusType(v.ty))
    case LVariable(_, _) => false
  }

  /** The values that a variant is made to hold in place of its own. */
  predicate MayWrap(default: Value, v: Value) {
    if TypeOf(default) == TInt(UInt32) then v.VString? else v.VInt? && v.kind == UInt32 && InRange(UInt32, v.n)
  }

  /** The expression can have the value, where these nodes are fuzzed. */
  ghost predicate MayHave(e: Expr, env: Env, hot: set<nat>, v: Value)
    decreases e, 0
  {
    match e
    case Data(id, _, lit) => Check(e, env).Some? && MayHaveLiteral(id, Check(e, env).value, lit, env, hot, v)
    case Not(c) => v.VBool? && MayHave(c, env, hot, VBool(!v.b))
    case Binary(op, l, r) =>
      exists x, y :: MayHave(l, env, hot, x) && MayHave(r, env, hot, y) && ApplyBinary(op, x, y) == Ok(v)
    case Call(fn, p) =>
      && Check(e, env).Some?
      && exists ps :: MayHave(p, env, hot, ps) &&
           if fn.FPairKeys? then MayPair(p, Check(e, env).value, ps, env, hot, v)
           else ApplyFunction(fn, Check(e, env).value, ps) == Ok(v)
  }

  /** Each key is paired with a value of its own. */
  ghost predicate MayPair(p: Expr, ret: Ty, ps: Value, env: Env, hot: set<nat>, v: Value)
    decreases p, 3
  {
    && Args(ps, 2) && ps.items[0].VArray?
    && exists entries :: MayHavePairs(p, ps.items[0].items, env, hot, entries) && Build(ret, entries) == Ok(v)
  }

  ghost predicate MayHavePairs(p: Expr, keys: seq<Value>, env: Env, hot: set<nat>, entries: seq<Value>)
    decreases p, 2
  {
    && |entries| == |keys|
    && forall i | 0 <= i < |keys| :: MayHavePair(p, keys[i], env, hot, entries[i])
  }

  ghost predicate MayHavePair(p: Expr, key: Value, env: Env, hot: set<nat>, entry: Value)
    decreases p, 1
  {
    exists ps :: MayHave(p, env, hot, ps) && Args(ps, 2) && entry == VEntry(key, ps.items[1])
  }

  ghost predicate MayHaveLiteral(id: nat, ty: Ty, lit: Literal, env: Env, hot: set<nat>, v: Value)
    decreases lit, 0
  {
    if Atom(lit) then
      if id in hot && !lit.LVariable? then PlainAtom(lit, env).Ok? && MayDrawAtom(lit, v)
      else PlainAtom(lit, env) == Ok(v)
    else match lit
    case LArray(items) =>
      ty.TArray? && v.VArray? && v.elem == ty.elem && MayHaveElements(id, ty.elem, items, env, hot, v.items)
    case LStruct(items) =>
      v.VTuple? && |v.items| == |items| && forall i | 0 <= i < |items| :: MayHave(items[i], env, hot, v.items[i])
    case LVariant(inner) =>
      v.VVariant? && exists w :: MayHave(inner, env, hot, w) && (v.inner == w || (id in hot && MayWrap(w, v.inner)))
    case LDict(entries) =>
      ty.TArray? && v.VArray? && v.elem == ty.elem && MayHaveEntries(id, ty.elem, entries, env, hot, v.items)
  }

  /** A fuzzed array leaves out elements, repeats them, and adds clones with their own node fuzzed. */
  ghost predicate MayHaveElement(id: nat, e: Expr, env: Env, hot: set<nat>, vs: seq<Value>)
    decreases e, 2
  {
    || (id in hot && vs == [])
    || exists v :: MayHave(e, env, hot, v) && MayRepeat(id, e, env, hot, v, vs)
  }

  ghost predicate MayRepeat(id: nat, e: Expr, env: Env, hot: set<nat>, v: Value, vs: seq<Value>)
    decreases e, 1
  {
    || vs == [v]
    || (id in hot && vs == [v, v])
    || (id in hot && e.Data? && exists w :: MayHave(e, env, hot + {e.id}, w) && (vs == [v] + [w] || vs == [v, v] + [w]))
  }

  ghost predicate MayHaveElements(id: nat, elem: Ty, es: seq<Expr>, env: Env, hot: set<nat>, vs: seq<Value>)
    decreases es, 0
  {
    if es == [] then vs == [] else
      exists first, rest ::
        && vs == first + rest && AllOf(elem, first)
        && MayHaveElement(id, es[0], env, hot, first) && MayHaveElements(id, elem, es[1..], env, hot, rest)
  }

  predicate AllOf(elem: Ty, vs: seq<Value>) {
    forall i | 0 <= i < |vs| :: TypeOf(vs[i]) == elem
  }

  /** A fuzzed dictionary leaves out entries, and adds clones with the node of their key fuzzed. */
  ghost predicate MayHaveEntry(id: nat, entry: Entry, env: Env, hot: set<nat>, vs: seq<Value>)
    decreases entry, 3
  {
    || (id in hot && vs == [])
    || exists k, v :: MayHave(entry.key, env, hot, k) && MayHave(entry.val, env, hot, v) &&
         MayDouble(id, entry, env, hot, k, v, vs)
  }

  ghost predicate MayDouble(id: nat, entry: Entry, env: Env, hot: set<nat>, k: Value, v: Value, vs: seq<Value>)
    decreases entry, 2
  {
    || vs == [VEntry(k, v)]
    || (id in hot && exists clone :: MayClone(entry, v, env, hot, clone) && vs == [VEntry(k, v)] + [clone])
  }

  ghost predicate MayClone(entry: Entry, v: Value, env: Env, hot: set<nat>, clone: Value)
    decreases entry, 1
  {
    && entry.key.Data? && entry.val.Data? && clone.VEntry?
    && MayHave(entry.key, env, hot + {entry.key.id}, clone.key)
    && (clone.val == v || MayHave(entry.val, env, hot + {entry.val.id}, clone.val))
  }

  ghost predicate MayHaveEntries(id: nat, elem: Ty, es: seq<Entry>, env: Env, hot: set<nat>, vs: seq<Value>)
    decreases es, 0
  {
    if es == [] then vs == [] else
      exists first, rest ::
        && vs == first + rest && AllEntriesOf(elem, first)
        && MayHaveEntry(id, es[0], env, hot, first) && MayHaveEntries(id, elem, es[1..], env, hot, rest)
  }

  predicate AllEntriesOf(elem: Ty, vs: seq<Value>) {
    forall i | 0 <= i < |vs| :: IsEntryOf(vs[i], elem)
  }

  // ----- fuzzing more -----------------------------------------------------------------------------

  /** Fuzzing more nodes takes no value away. */
  lemma {:induction false} MoreMayHave(e: Expr, env: Env, hot: set<nat>, hot': set<nat>, v: Value)
    requires hot <= hot' && MayHave(e, env, hot, v)
    ensures MayHave(e, env, hot', v)
    decreases e, 0
  {
    hide ApplyBinary, ApplyFunction, FunctionType, MayHaveLiteral, MayPair;
    match e
    case Data(id, _, lit) => LiteralMore(id, Check(e, env).value, lit, env, hot, hot', v);
    case Not(c) => MoreMayHave(c, env, hot, hot', VBool(!v.b));
    case Binary(op, l, r) =>
      var x, y :| MayHave(l, env, hot, x) && MayHave(r, env, hot, y) && ApplyBinary(op, x, y) == Ok(v);
      MoreMayHave(l, env, hot, hot', x);
      MoreMayHave(r, env, hot, hot', y);
    case Call(fn, p) =>
      var ret := Check(e, env).value;
      var ps :| MayHave(p, env, hot, ps) &&
        if fn.FPairKeys? then MayPair(p, ret, ps, env, hot, v) else ApplyFunction(fn, ret, ps) == Ok(v);
      MoreMayHave(p, env, hot, hot', ps);
      if fn.FPairKeys? { PairMore(p, ret, ps, env, hot, hot', v); }
  }

  lemma {:induction false} PairMore(p: Expr, ret: Ty, ps: Value, env: Env, hot: set<nat>, hot': set<nat>, v: Value)
    requires hot <= hot' && MayPair(p, ret, ps, env, hot, v)
    ensures MayPair(p, ret, ps, env, hot', v)
    decreases p, 1
  {
    hide MayHave, Build;
    var keys := ps.items[0].items;
    var entries :| MayHavePairs(p, keys, env, hot, entries) && Build(ret, entries) == Ok(v);
    forall i | 0 <= i < |keys| ensures MayHavePair(p, keys[i], env, hot', entries[i]) {
      assert MayHavePair(p, keys[i], env, hot, entries[i]);
      var qs :| MayHave(p, env, hot, qs) && Args(qs, 2) && entries[i] == VEntry(keys[i], qs.items[1]);
      MoreMayHave(p, env, hot, hot', qs);
    }
    assert MayHavePairs(p, keys, env, hot', entries);
  }

  lemma {:induction false} LiteralMore(id: nat, ty: Ty, lit: Literal, env: Env, hot: set<nat>, hot': set<nat>, v: Value)
    requires hot <= hot' && MayHaveLiteral(id, ty, lit, env, hot, v)
    ensures MayHaveLiteral(id, ty, lit, env, hot', v)
    decreases lit, 0
  {
    hide MayHave, MayHaveElements, MayHaveEntries, MayWrap, MayDraw, DBusType;
    match lit
    case LInt(k, n) => MayStay(k, n);
    case LArray(items) => ElementsMore(id, ty.elem, items, env, hot, hot', v.items);
    case LStruct(items) =>
      forall i | 0 <= i < |items| ensures MayHave(items[i], env, hot', v.items[i]) {
        MoreMayHave(items[i], env, hot, hot', v.items[i]);
      }
    case LVariant(inner) =>
      var w :| MayHave(inner, env, hot, w) && (v.inner == w || (id in hot && MayWrap(w, v.inner)));
      MoreMayHave(inner, env, hot, hot', w);
    case LDict(entries) => EntriesMore(id, ty.elem, entries, env, hot, hot', v.items);
    case _ =>
  }

  lemma MayStay(k: IntKind, n: int)
    ensures MayDraw(k, n, n)
  {
  }

  lemma {:induction false} ElementMore(id: nat, e: Expr, env: Env, hot: set<nat>, hot': set<nat>, vs: seq<Value>)
    requires hot <= hot' && MayHaveElement(id, e, env, hot, vs)
    ensures MayHaveElement(id, e, env, hot', vs)
    decreases e, 1
  {
    hide MayHave;
    if !(id in hot && vs == []) {
      var v :| MayHave(e, env, hot, v) && MayRepeat(id, e, env, hot, v, vs);
      MoreMayHave(e, env, hot, hot', v);
      if vs != [v] && vs != [v, v] {
        var w :| MayHave(e, env, hot + {e.id}, w) && (vs == [v] + [w] || vs == [v, v] + [w]);
        MoreMayHave(e, env, hot + {e.id}, hot' + {e.id}, w);
      }
      assert MayRepeat(id, e, env, hot', v, vs);
    }
  }

  lemma {:induction false} ElementsMore(id: nat, elem: Ty, es: seq<Expr>, env: Env, hot: set<nat>, hot': set<nat>,
                                        vs: seq<Value>)
    requires hot <= hot' && MayHaveElements(id, elem, es, env, hot, vs)
    ensures MayHaveElements(id, elem, es, env, hot', vs)
    decreases es, 0
  {
    hide MayHaveElement, AllOf;
    if es != [] {
      var one, rest :| vs == one + rest && AllOf(elem, one)
        && MayHaveElement(id, es[0], env, hot, one) && MayHaveElements(id, elem, es[1..], env, hot, rest);
      ElementMore(id, es[0], env, hot, hot', one);
      ElementsMore(id, elem, es[1..], env, hot, hot', rest);
    }
  }

  lemma {:induction false} EntryMore(id: nat, entry: Entry, env: Env, hot: set<nat>, hot': set<nat>, vs: seq<Value>)
    requires hot <= hot' && MayHaveEntry(id, entry, env, hot, vs)
    ensures MayHaveEntry(id, entry, env, hot', vs)
    decreases entry, 1
  {
    hide MayHave;
    if !(id in hot && vs == []) {
      var k, v :| MayHave(entry.key, env, hot, k) && MayHave(entry.val, env, hot, v)
        && MayDouble(id, entry, env, hot, k, v, vs);
      MoreMayHave(entry.key, env, hot, hot', k);
      MoreMayHave(entry.val, env, hot, hot', v);
      if vs != [VEntry(k, v)] {
        var clone :| MayClone(entry, v, env, hot, clone) && vs == [VEntry(k, v)] + [clone];
        MoreMayHave(entry.key, env, hot + {entry.key.id}, hot' + {entry.key.id}, clone.key);
        if clone.val != v { MoreMayHave(entry.val, env, hot + {entry.val.id}, hot' + {entry.val.id}, clone.val); }
        assert MayClone(entry, v, env, hot', clone);
      }
      assert MayDouble(id, entry, env, hot', k, v, vs);
    }
  }

  lemma {:induction false} EntriesMore(id: nat, elem: Ty, es: seq<Entry>, env: Env, hot: set<nat>, hot': set<nat>,
                                       vs: seq<Value>)
    requires hot <= hot' && MayHaveEntries(id, elem, es, env, hot, vs)
    ensures MayHaveEntries(id, elem, es, env, hot', vs)
    decreases es, 0
  {
    hide MayHaveEntry, AllEntriesOf;
    if es != [] {
      var one, rest :| vs == one + rest && AllEntriesOf(elem, one)
        && MayHaveEntry(id, es[0], env, hot, one) && MayHaveEntries(id, elem, es[1..], env, hot, rest);
      EntryMore(id, es[0], env, hot, hot', one);
      EntriesMore(id, elem, es[1..], env, hot, hot', rest);
    }
  }

  // ----- the nodes that are fuzzed ----------------------------------------------------------------

  ghost predicate Heats(st: Fuzz, hot: set<nat>) {
    forall id: nat {:trigger id in hot} {:trigger st.Fuzzes(id)} :: st.Fuzzes(id) <==> id in hot
  }

  /** The nodes fuzzed in a state. */
  function Hot(st: Fuzz): set<nat> {
    set id | id in st.weights && st.Fuzzes(id)
  }

  lemma HotHeats(st: Fuzz)
    ensures Heats(st, Hot(st))
  {
  }

  lemma HeatsOn(st: Fuzz, st': Fuzz, hot: set<nat>)
    requires Heats(st, hot) && OnlyDraws(st, st')
    ensures Heats(st', hot)
  {
    forall id: nat ensures st'.Fuzzes(id) <==> id in hot {
      assert st'.Weight(id) == st.Weight(id) && (st.Fuzzes(id) <==> id in hot);
    }
  }

  lemma HeatsAdvance(st: Fuzz, hot: set<nat>)
    requires Heats(st, hot)
    ensures Heats(st.Advance(), hot)
  {
    HeatsOn(st, st.Advance(), hot);
  }

  /** The state in which a clone is evaluated. */
  function Raised(st: Fuzz, id: nat): Fuzz {
    st.SetWeight(id, if st.Weight(id) > 1.0 then st.Weight(id) else 1.0)
  }

  lemma RaisedHeats(st: Fuzz, id: nat, hot: set<nat>)
    requires Heats(st, hot) && hot != {}
    ensures Heats(Raised(st, id), hot + {id})
  {
    var some :| some in hot;
    assert st.Fuzzes(some);
    forall other: nat ensures Raised(st, id).Fuzzes(other) <==> other in hot + {id} {
      assert st.Fuzzes(other) <==> other in hot;
    }
  }

  // ----- whatever is drawn, the semantics allows --------------------------------------------------

  lemma FuzzIntMayDraw(k: IntKind, default: int, st: Fuzz)
    ensures MayDraw(k, default, FuzzInt(k, default, st).0)
  {
    if k.UInt64? && st.Peek().n % 4 == 3 {
      TwoDigits(st.Advance().Range(0, UINT32_RANGE), st.Advance().Advance().Range(0, UINT32_RANGE));
    }
  }

  lemma PathMayDraw(path: string, st: Fuzz)
    ensures var p := FuzzPath(path, st).0; p == path || MayExtend(path, p)
  {
    hide Decimal, IsNumeral;
    if !st.Coin() {
      var n := st.Advance().Range(0, 100);
      NumeralsRead(n);
      assert (path + Decimal(n))[|path|..] == Decimal(n) && (path + Decimal(n))[..|path|] == path;
    }
  }

  lemma TwoDigits(high: int, low: int)
    requires 0 <= high < UINT32_RANGE && 0 <= low < UINT32_RANGE
    ensures InRange(UInt64, high * UINT32_RANGE + low)
  {
  }

  lemma {:induction false} EvalMayHave(e: Expr, env: Env, st: Fuzz, hot: set<nat>)
    requires Heats(st, hot) && Eval(e, env, st).res.Ok?
    ensures MayHave(e, env, hot, Eval(e, env, st).res.value)
    decreases e, 0
  {
    hide Heats, OnlyDraws, ApplyBinary, MayHaveLiteral, EvalLiteral;
    match e
    case Data(id, _, lit) => LiteralMayHave(id, Check(e, env).value, lit, env, st, hot);
    case Not(c) => EvalMayHave(c, env, st, hot);
    case Binary(op, l, r) =>
      EvalMayHave(l, env, st, hot);
      EvalOnlyDraws(l, env, st);
      HeatsOn(st, Eval(l, env, st).st, hot);
      EvalMayHave(r, env, Eval(l, env, st).st, hot);
    case Call(fn, p) => CallMayHave(fn, p, env, st, hot);
  }

  lemma {:induction false} CallMayHave(fn: Function, p: Expr, env: Env, st: Fuzz, hot: set<nat>)
    requires Heats(st, hot) && Eval(Call(fn, p), env, st).res.Ok?
    ensures MayHave(Call(fn, p), env, hot, Eval(Call(fn, p), env, st).res.value)
    decreases p, 3
  {
    hide Heats, OnlyDraws, ApplyFunction, FunctionType, Build, MayHavePairs;
    EvalMayHave(p, env, st, hot);
    var params := Eval(p, env, st);
    if fn.FPairKeys? {
      EvalOnlyDraws(p, env, st);
      HeatsOn(st, params.st, hot);
      PairsMayHave(p, params.res.value.items[0].items, env, params.st, hot);
    }
  }

  lemma {:induction false} PairsMayHave(p: Expr, keys: seq<Value>, env: Env, st: Fuzz, hot: set<nat>)
    requires Heats(st, hot) && EvalPairList(p, keys, env, st).res.Ok?
    ensures MayHavePairs(p, keys, env, hot, EvalPairList(p, keys, env, st).res.value)
    decreases p, 1, |keys|
  {
    hide Heats, OnlyDraws, Eval;
    if keys != [] {
      EvalMayHave(p, env, st, hot);
      EvalOnlyDraws(p, env, st);
      var params := Eval(p, env, st);
      HeatsOn(st, params.st, hot);
      PairsMayHave(p, keys[1..], env, params.st, hot);
      PairsGrow(p, keys, env, hot, params.res.value, EvalPairList(p, keys[1..], env, params.st).res.value);
    }
  }

  lemma PairsGrow(p: Expr, keys: seq<Value>, env: Env, hot: set<nat>, ps: Value, rest: seq<Value>)
    requires keys != [] && MayHave(p, env, hot, ps) && Args(ps, 2) && MayHavePairs(p, keys[1..], env, hot, rest)
    ensures MayHavePairs(p, keys, env, hot, [VEntry(keys[0], ps.items[1])] + rest)
  {
    hide MayHave, MayHavePair;
    PairIs(p, keys[0], env, hot, ps);
    forall i | 0 < i < |keys| ensures MayHavePair(p, keys[i], env, hot, rest[i - 1]) {
      assert keys[i] == keys[1..][i - 1];
    }
  }

  lemma PairIs(p: Expr, key: Value, env: Env, hot: set<nat>, ps: Value)
    requires MayHave(p, env, hot, ps) && Args(ps, 2)
    ensures MayHavePair(p, key, env, hot, VEntry(key, ps.items[1]))
  {
    hide MayHave;
  }

  lemma {:induction false} LiteralMayHave(id: nat, ty: Ty, lit: Literal, env: Env, st: Fuzz, hot: set<nat>)
    requires Heats(st, hot) && EvalLiteral(id, ty, lit, env, st).res.Ok?
    ensures MayHaveLiteral(id, ty, lit, env, hot, EvalLiteral(id, ty, lit, env, st).res.value)
    decreases lit, 0
  {
    hide Heats, OnlyDraws, Eval, EvalElements, EvalEntries, EvalAll, MayHaveElements, MayHaveEntries, MayHave;
    hide FuzzInt, MayDraw, DBusType, TypeOf, MayWrap;
    Fuzzed(id, st, hot);
    var st0 := if st.Fuzzes(id) then st.Advance() else st;
    HeatsAdvance(st, hot);
    match lit
    case LArray(items) =>
      if st.Fuzzes(id) && !st.Coin() { NoElements(id, ty.elem, items, env, hot); }
      else { ElementsMayHave(id, ty.elem, items, env, st0, hot); }
    case LStruct(items) => AllMayHave(items, env, st, hot);
    case LVariant(inner) =>
      EvalMayHave(inner, env, st, hot);
      EvalOnlyDraws(inner, env, st);
      var out := Eval(inner, env, st);
      HeatsOn(st, out.st, hot);
      Fuzzed(id, out.st, hot);
      if out.st.Fuzzes(id) { VariantMayWrap(out.res.value, out.st); }
    case LDict(entries) =>
      if st.Fuzzes(id) && !st.Coin() { NoEntries(id, ty.elem, entries, env, hot); }
      else { EntriesMayHave(id, ty.elem, entries, env, st0, hot); }
    case _ => AtomMayHave(id, ty, lit, env, st);
  }

  lemma AtomMayHave(id: nat, ty: Ty, lit: Literal, env: Env, st: Fuzz)
    requires Atom(lit) && EvalLiteral(id, ty, lit, env, st).res.Ok?
    ensures var v := EvalLiteral(id, ty, lit, env, st).res.value;
      if st.Fuzzes(id) && !lit.LVariable? then PlainAtom(lit, env).Ok? && MayDrawAtom(lit, v)
      else PlainAtom(lit, env) == Ok(v)
  {
    hide EvalLiteral, DBusType, FuzzInt, MayDraw;
    if st.Fuzzes(id) && PlainAtom(lit, env).Ok? && !lit.LVariable? {
      AtomDrawn(id, ty, lit, env, st);
      if lit.LInt? { FuzzIntMayDraw(lit.kind, lit.n, st); }
      if lit.LPath? { PathMayDraw(lit.path, st); }
    } else {
      AtomKept(id, ty, lit, env, st);
    }
  }

  lemma Fuzzed(id: nat, st: Fuzz, hot: set<nat>)
    requires Heats(st, hot)
    ensures st.Fuzzes(id) <==> id in hot
  {
  }

  lemma VariantMayWrap(default: Value, st: Fuzz)
    ensures var r := FuzzVariant(default, st).res;
      r.Ok? && r.value.VVariant? && (r.value.inner == default || MayWrap(default, r.value.inner))
  {
    hide TypeOf, FuzzInt;
    FuzzIntMayDraw(UInt32, 0, st.Advance());
  }

  lemma {:induction false} NoElements(id: nat, elem: Ty, es: seq<Expr>, env: Env, hot: set<nat>)
    requires id in hot
    ensures MayHaveElements(id, elem, es, env, hot, [])
    decreases |es|
  {
    if es != [] {
      NoElements(id, elem, es[1..], env, hot);
      var none: seq<Value> := [];
      assert none == none + none && AllOf(elem, none) && MayHaveElement(id, es[0], env, hot, none);
    }
  }

  lemma {:induction false} NoEntries(id: nat, elem: Ty, es: seq<Entry>, env: Env, hot: set<nat>)
    requires id in hot
    ensures MayHaveEntries(id, elem, es, env, hot, [])
    decreases |es|
  {
    if es != [] {
      NoEntries(id, elem, es[1..], env, hot);
      var none: seq<Value> := [];
      assert none == none + none && AllEntriesOf(elem, none) && MayHaveEntry(id, es[0], env, hot, none);
    }
  }

  lemma {:induction false} AllMayHave(es: seq<Expr>, env: Env, st: Fuzz, hot: set<nat>)
    requires Heats(st, hot) && EvalAll(es, env, st).res.Ok?
    ensures var vs := EvalAll(es, env, st).res.value;
      |vs| == |es| && forall i | 0 <= i < |es| :: MayHave(es[i], env, hot, vs[i])
    decreases es, 0
  {
    hide Heats, OnlyDraws, Eval, MayHave;
    if es != [] {
      EvalMayHave(es[0], env, st, hot);
      EvalOnlyDraws(es[0], env, st);
      var first := Eval(es[0], env, st);
      HeatsOn(st, first.st, hot);
      AllMayHave(es[1..], env, first.st, hot);
      forall i | 0 < i < |es| ensures MayHave(es[i], env, hot, EvalAll(es, env, st).res.value[i]) {
        assert es[i] == es[1..][i - 1];
      }
    }
  }

  lemma {:induction false} CloneMayHave(e: Expr, env: Env, st: Fuzz, hot: set<nat>)
    requires e.Data? && Heats(st, hot) && hot != {} && FuzzClone(e, env, st).res.Ok?
    ensures MayHave(e, env, hot + {e.id}, FuzzClone(e, env, st).res.value)
    decreases e, 1
  {
    hide Heats, Eval, MayHave;
    RaisedHeats(st, e.id, hot);
    EvalMayHave(e, env, Raised(st, e.id), hot + {e.id});
  }

  lemma {:induction false} ElementMayHave(id: nat, e: Expr, env: Env, st: Fuzz, hot: set<nat>)
    requires Heats(st, hot) && EvalElement(id, e, env, st).res.Ok?
    ensures MayHaveElement(id, e, env, hot, EvalElement(id, e, env, st).res.value)
    decreases e, 2
  {
    hide Heats, OnlyDraws, Eval, MayHave, FuzzClone;
    Fuzzed(id, st, hot);
    if !(st.Fuzzes(id) && st.Coin()) {
      var st0 := if st.Fuzzes(id) then st.Advance() else st;
      HeatsAdvance(st, hot);
      EvalMayHave(e, env, st0, hot);
      EvalOnlyDraws(e, env, st0);
      var st1 := Eval(e, env, st0).st;
      HeatsOn(st0, st1, hot);
      Fuzzed(id, st1, hot);
      HeatsAdvance(st1, hot);
      HeatsAdvance(st1.Advance(), hot);
      Fuzzed(id, st1.Advance(), hot);
      if st1.Fuzzes(id) && e.Data? && st1.Advance().Coin() { CloneMayHave(e, env, st1.Advance().Advance(), hot); }
    }
  }

  lemma {:induction false} ElementsMayHave(id: nat, elem: Ty, es: seq<Expr>, env: Env, st: Fuzz, hot: set<nat>)
    requires Heats(st, hot) && EvalElements(id, elem, es, env, st).res.Ok?
    ensures MayHaveElements(id, elem, es, env, hot, EvalElements(id, elem, es, env, st).res.value)
    decreases es, 0
  {
    hide Heats, OnlyDraws, EvalElement, MayHaveElement, TypeOf;
    if es != [] {
      ElementMayHave(id, es[0], env, st, hot);
      ElementOnlyDraws(id, es[0], env, st);
      var first := EvalElement(id, es[0], env, st);
      HeatsOn(st, first.st, hot);
      ElementsMayHave(id, elem, es[1..], env, first.st, hot);
      assert AllOf(elem, first.res.value);
    }
  }

  lemma {:induction false} CloneEntryMayHave(entry: Entry, v: Value, env: Env, st: Fuzz, hot: set<nat>)
    requires entry.key.Data? && entry.val.Data? && Heats(st, hot) && hot != {} && CloneEntry(entry, v, env, st).res.Ok?
    ensures MayClone(entry, v, env, hot, CloneEntry(entry, v, env, st).res.value)
    decreases entry, 1
  {
    hide Heats, OnlyDraws, MayHave, FuzzClone;
    CloneMayHave(entry.key, env, st, hot);
    CloneOnlyDraws(entry.key, env, st);
    var key := FuzzClone(entry.key, env, st);
    HeatsOn(st, key.st, hot);
    HeatsAdvance(key.st, hot);
    if key.st.Coin() { CloneMayHave(entry.val, env, key.st.Advance(), hot); }
  }

  lemma {:induction false} EntryMayHave(id: nat, entry: Entry, env: Env, st: Fuzz, hot: set<nat>)
    requires Heats(st, hot) && EvalEntry(id, entry, env, st).res.Ok?
    ensures MayHaveEntry(id, entry, env, hot, EvalEntry(id, entry, env, st).res.value)
    decreases entry, 2
  {
    hide Heats, OnlyDraws, Eval, MayHave, CloneEntry, MayClone;
    Fuzzed(id, st, hot);
    if !(st.Fuzzes(id) && st.Coin()) {
      var st0 := if st.Fuzzes(id) then st.Advance() else st;
      HeatsAdvance(st, hot);
      EvalMayHave(entry.key, env, st0, hot);
      EvalOnlyDraws(entry.key, env, st0);
      var key := Eval(entry.key, env, st0);
      HeatsOn(st0, key.st, hot);
      EvalMayHave(entry.val, env, key.st, hot);
      EvalOnlyDraws(entry.val, env, key.st);
      var val := Eval(entry.val, env, key.st);
      HeatsOn(key.st, val.st, hot);
      Fuzzed(id, val.st, hot);
      HeatsAdvance(val.st, hot);
      if val.st.Fuzzes(id) && entry.key.Data? && entry.val.Data? && val.st.Coin() {
        CloneEntryMayHave(entry, val.res.value, env, val.st.Advance(), hot);
      }
    }
  }

  lemma {:induction false} EntriesMayHave(id: nat, elem: Ty, es: seq<Entry>, env: Env, st: Fuzz, hot: set<nat>)
    requires Heats(st, hot) && EvalEntries(id, elem, es, env, st).res.Ok?
    ensures MayHaveEntries(id, elem, es, env, hot, EvalEntries(id, elem, es, env, st).res.value)
    decreases es, 0
  {
    hide Heats, OnlyDraws, EvalEntry, MayHaveEntry, IsEntryOf;
    if es != [] {
      EntryMayHave(id, es[0], env, st, hot);
      EntryOnlyDraws(id, es[0], env, st);
      var first := EvalEntry(id, es[0], env, st);
      HeatsOn(st, first.st, hot);
      EntriesMayHave(id, elem, es[1..], env, first.st, hot);
      assert AllEntriesOf(elem, first.res.value);
    }
  }

  // ----- whatever the semantics allows, some draws give -------------------------------------------

  /** These nodes are fuzzed, and the next draws are these. */
  ghost predicate On(st: Fuzz, hot: set<nat>, ds: seq<Draw>) {
    Heats(st, hot) && forall i | 0 <= i < |ds| :: Ahead(st, i) == ds[i]
  }

  /** That many draws lead to the value. */
  ghost predicate Makes<T(!new)>(st: Fuzz, ds: seq<Draw>, o: Out<T>, v: T) {
    o.res == Ok(v) && OnlyDraws(st, o.st) && o.st.pos == st.pos + |ds|
  }

  lemma OnFirst(st: Fuzz, hot: set<nat>, a: seq<Draw>, b: seq<Draw>)
    requires On(st, hot, a + b)
    ensures On(st, hot, a)
  {
    hide Heats;
    forall i | 0 <= i < |a| ensures Ahead(st, i) == a[i] { assert (a + b)[i] == a[i]; }
  }

  /** After the first draws the others are next. */
  lemma OnThen(st: Fuzz, hot: set<nat>, a: seq<Draw>, b: seq<Draw>, st': Fuzz)
    requires On(st, hot, a + b) && OnlyDraws(st, st') && st'.pos == st.pos + |a|
    ensures On(st', hot, b)
  {
    hide Heats;
    HeatsOn(st, st', hot);
    forall i | 0 <= i < |b| ensures Ahead(st', i) == b[i] {
      assert Ahead(st, |a| + i) == (a + b)[|a| + i];
      assert st.pos + (|a| + i) == st'.pos + i;
    }
  }

  /** The draw next to be made, and those after it. */
  lemma OnNext(st: Fuzz, hot: set<nat>, d: Draw, ds: seq<Draw>)
    requires On(st, hot, [d] + ds)
    ensures st.Peek() == d && On(st.Advance(), hot, ds) && OnlyDraws(st, st.Advance())
  {
    OnThen(st, hot, [d], ds, st.Advance());
    assert Ahead(st, 0) == ([d] + ds)[0];
  }

  function Pick(n: nat): Draw {
    Draw(n, "", 0.0, TBool)
  }

  function Flip(heads: bool): Draw {
    Pick(if heads then 1 else 0)
  }

  function DrawsInt(k: IntKind, default: int, n: int): (ds: seq<Draw>)
    requires MayDraw(k, default, n)
  {
    if n == default then [Pick(1)]
    else if n == MinOf(k) || n == MaxOf(k) then [Pick(2), Flip(n == MinOf(k))]
    else DrawsWhole(k, n)
  }

  /** Draws of an integer that is neither the one in place nor a boundary. */
  function DrawsWhole(k: IntKind, n: int): (ds: seq<Draw>)
    requires MinOf(k) < n < MaxOf(k) && (k.Int64? ==> -5 <= n < UINT32_RANGE)
  {
    match k
    case Int64 => if n < 0 then [Pick(0), Pick(n + 5)] else [Pick(3), Flip(true), Pick(n)]
    case UInt64 => [Pick(3), Pick(n / UINT32_RANGE), Pick(n % UINT32_RANGE)]
    case UInt32 => [Pick(3), Pick(n)]
    case _ => [Pick(3), Pick(n - MinOf(k))]
  }

  lemma IntIsDrawn(k: IntKind, default: int, n: int, st: Fuzz, hot: set<nat>)
    requires MayDraw(k, default, n) && On(st, hot, DrawsInt(k, default, n))
    ensures FuzzInt(k, default, st).0 == n && FuzzInt(k, default, st).1.pos == st.pos + |DrawsInt(k, default, n)|
  {
    hide Heats, FuzzInt, DrawsInt;
    var ds := DrawsInt(k, default, n);
    forall i: nat | i < |ds| ensures st.tape(st.pos + i) == ds[i] { assert Ahead(st, i) == ds[i]; }
    IntOfDraws(k, default, n, st);
  }

  lemma IntOfDraws(k: IntKind, default: int, n: int, st: Fuzz)
    requires MayDraw(k, default, n)
    requires forall i: nat | i < |DrawsInt(k, default, n)| :: st.tape(st.pos + i) == DrawsInt(k, default, n)[i]
    ensures FuzzInt(k, default, st).0 == n && FuzzInt(k, default, st).1.pos == st.pos + |DrawsInt(k, default, n)|
  {
    var ds := DrawsInt(k, default, n);
    if n == default || n == MinOf(k) || n == MaxOf(k) {
      assert st.Peek() == ds[0];
      if n != default { assert st.Advance().Peek() == ds[1]; }
    } else {
      WholeOfDraws(k, default, n, st);
    }
  }

  lemma WholeOfDraws(k: IntKind, default: int, n: int, st: Fuzz)
    requires MinOf(k) < n < MaxOf(k) && (k.Int64? ==> -5 <= n < UINT32_RANGE)
    requires forall i: nat | i < |DrawsWhole(k, n)| :: st.tape(st.pos + i) == DrawsWhole(k, n)[i]
    ensures FuzzInt(k, default, st).0 == n && FuzzInt(k, default, st).1.pos == st.pos + |DrawsWhole(k, n)|
  {
    hide FuzzInt;
    var ds := DrawsWhole(k, n);
    assert st.Peek() == ds[0] && st.Advance().Peek() == ds[1];
    if |ds| > 2 { assert st.Advance().Advance().Peek() == ds[2]; }
    match k
    case Int64 => if n < 0 { SmallOfDraws(default, n, st); } else { Int64OfDraws(default, n, st); }
    case UInt64 => UInt64OfDraws(default, n, st);
    case _ => NarrowOfDraws(k, default, n, st);
  }

  lemma SmallOfDraws(default: int, n: int, st: Fuzz)
    requires -5 <= n < 0 && st.Peek() == Pick(0) && st.Advance().Peek() == Pick(n + 5)
    ensures FuzzInt(Int64, default, st) == (n, st.Advance().Advance())
  {
  }

  lemma Int64OfDraws(default: int, n: int, st: Fuzz)
    requires 0 <= n < UINT32_RANGE && st.Peek() == Pick(3) && st.Advance().Peek() == Flip(true)
    requires st.Advance().Advance().Peek() == Pick(n)
    ensures FuzzInt(Int64, default, st) == (n, st.Advance().Advance().Advance())
  {
  }

  lemma UInt64OfDraws(default: int, n: int, st: Fuzz)
    requires InRange(UInt64, n) && st.Peek() == Pick(3) && st.Advance().Peek() == Pick(n / UINT32_RANGE)
    requires st.Advance().Advance().Peek() == Pick(n % UINT32_RANGE)
    ensures FuzzInt(UInt64, default, st) == (n, st.Advance().Advance().Advance())
  {
  }

  lemma NarrowOfDraws(k: IntKind, default: int, n: int, st: Fuzz)
    requires !k.Int64? && !k.UInt64? && MinOf(k) <= n < MaxOf(k)
    requires st.Peek() == Pick(3) && st.Advance().Peek() == Pick(n - MinOf(k))
    ensures FuzzInt(k, default, st) == (n, st.Advance().Advance())
  {
  }

  /** Two evaluations, one after the other: what the first draws is followed by what the second draws. */
  lemma Chained<T(!new)>(st: Fuzz, hot: set<nat>, a: seq<Draw>, b: seq<Draw>, o: Out<T>, v: T)
    requires On(st, hot, a + b) && (On(st, hot, a) ==> Makes(st, a, o, v))
    ensures Makes(st, a, o, v) && On(o.st, hot, b)
  {
    hide On, OnlyDraws;
    OnFirst(st, hot, a, b);
    OnThen(st, hot, a, b, o.st);
  }

  lemma Total<T(!new)>(st: Fuzz, a: seq<Draw>, b: seq<Draw>, o: Out<T>, v: T, end: Fuzz)
    requires Makes(st, a, o, v) && OnlyDraws(o.st, end) && end.pos == o.st.pos + |b|
    ensures OnlyDraws(st, end) && end.pos == st.pos + |a + b|
  {
    Chain(st, o.st, end);
  }

  // ----- literals without children ----------------------------------------------------------------

  lemma AtomIsDrawn(id: nat, ty: Ty, lit: Literal, env: Env, hot: set<nat>, v: Value) returns (ds: seq<Draw>)
    requires Atom(lit) && MayHaveLiteral(id, ty, lit, env, hot, v)
    ensures forall st | On(st, hot, ds) :: Makes(st, ds, EvalLiteral(id, ty, lit, env, st), v)
  {
    hide EvalLiteral, Heats, DrawnAtom, OnlyDraws, MayDrawAtom, PlainAtom;
    var drawn := id in hot && !lit.LVariable?;
    ds := [];
    if drawn { ds := HotAtom(lit, v); }
    forall st | On(st, hot, ds) ensures Makes(st, ds, EvalLiteral(id, ty, lit, env, st), v) {
      Fuzzed(id, st, hot);
      if drawn { AtomDrawn(id, ty, lit, env, st); } else { AtomKept(id, ty, lit, env, st); }
      LiteralOnlyDraws(id, ty, lit, env, st);
    }
  }

  lemma HotAtom(lit: Literal, v: Value) returns (ds: seq<Draw>)
    requires Atom(lit) && !lit.LVariable? && MayDrawAtom(lit, v)
    ensures forall st, hot | On(st, hot, ds) :: DrawnAtom(lit, st).0 == v && DrawnAtom(lit, st).1.pos == st.pos + |ds|
  {
    hide On, DrawsInt, FuzzInt, FuzzPath, MayExtend, MayDraw, DBusType;
    match lit
    case LBool(b) => ds := [Flip(v.b == b)]; NextDraws(ds);
    case LInt(k, n) =>
      ds := DrawsInt(k, n, v.n);
      forall st, hot | On(st, hot, ds) ensures DrawnAtom(lit, st).0 == v && DrawnAtom(lit, st).1.pos == st.pos + |ds| {
        IntIsDrawn(k, n, v.n, st, hot);
      }
    case LDouble(_) => ds := [Draw(0, "", v.x, TBool)]; NextDraws(ds);
    case LString(_) => ds := [Draw(0, v.s, 0.0, TBool)]; NextDraws(ds);
    case LPath(p) => ds := PathIsDrawn(p, v.path);
    case LSignature(t) =>
      ds := if v.ty == t then [Flip(true)] else [Flip(false), Draw(0, "", 0.0, v.ty)];
      NextDraws(ds);
  }

  lemma PathIsDrawn(path: string, p: string) returns (ds: seq<Draw>)
    requires p == path || MayExtend(path, p)
    ensures forall st, hot | On(st, hot, ds) :: FuzzPath(path, st).0 == p && FuzzPath(path, st).1.pos == st.pos + |ds|
  {
    hide On, Decimal, IsNumeral, Read;
    if p == path {
      ds := [Flip(true)];
    } else {
      var numeral := p[|path|..];
      ReadNumerals(numeral);
      assert p == path + numeral;
      ds := [Flip(false), Pick(Read(numeral))];
    }
    NextDraws(ds);
  }

  lemma NextDraws(ds: seq<Draw>)
    ensures forall st, hot | On(st, hot, ds) ::
      (|ds| > 0 ==> st.Peek() == ds[0]) && (|ds| > 1 ==> st.Advance().Peek() == ds[1])
  {
    hide Heats;
    forall st, hot | On(st, hot, ds)
      ensures (|ds| > 0 ==> st.Peek() == ds[0]) && (|ds| > 1 ==> st.Advance().Peek() == ds[1])
    {
      if |ds| > 0 { assert Ahead(st, 0) == ds[0]; }
      if |ds| > 1 { assert Ahead(st, 1) == ds[1]; }
    }
  }

  // ----- expressions ------------------------------------------------------------------------------

  lemma {:induction false} IsDrawn(e: Expr, env: Env, hot: set<nat>, v: Value) returns (ds: seq<Draw>)
    requires MayHave(e, env, hot, v)
    ensures forall st | On(st, hot, ds) :: Makes(st, ds, Eval(e, env, st), v)
    decreases e, 0
  {
    hide On, OnlyDraws, ApplyBinary, MayHaveLiteral, EvalLiteral;
    match e
    case Data(id, _, lit) =>
      ds := LiteralIsDrawn(id, Check(e, env).value, lit, env, hot, v);
    case Not(c) =>
      ds := IsDrawn(c, env, hot, VBool(!v.b));
    case Binary(op, l, r) =>
      var x, y :| MayHave(l, env, hot, x) && MayHave(r, env, hot, y) && ApplyBinary(op, x, y) == Ok(v);
      var a := IsDrawn(l, env, hot, x);
      var b := IsDrawn(r, env, hot, y);
      ds := a + b;
      forall st | On(st, hot, ds) ensures Makes(st, ds, Eval(e, env, st), v) {
        var left := Eval(l, env, st);
        Chained(st, hot, a, b, left, x);
        Total(st, a, b, left, x, Eval(r, env, left.st).st);
      }
    case Call(fn, p) => ds := CallIsDrawn(fn, p, env, hot, v);
  }

  lemma {:induction false} CallIsDrawn(fn: Function, p: Expr, env: Env, hot: set<nat>, v: Value)
    returns (ds: seq<Draw>)
    requires MayHave(Call(fn, p), env, hot, v)
    ensures forall st | On(st, hot, ds) :: Makes(st, ds, Eval(Call(fn, p), env, st), v)
    decreases p, 3
  {
    hide On, OnlyDraws, ApplyFunction, FunctionType, Build, MayHavePairs;
    var e := Call(fn, p);
    var ret := Check(e, env).value;
    var ps :| MayHave(p, env, hot, ps) &&
      if fn.FPairKeys? then MayPair(p, ret, ps, env, hot, v) else ApplyFunction(fn, ret, ps) == Ok(v);
    var a := IsDrawn(p, env, hot, ps);
    if fn.FPairKeys? {
      var keys := ps.items[0].items;
      var entries :| MayHavePairs(p, keys, env, hot, entries) && Build(ret, entries) == Ok(v);
      var b := PairsAreDrawn(p, keys, env, hot, entries);
      ds := a + b;
      forall st | On(st, hot, ds) ensures Makes(st, ds, Eval(e, env, st), v) {
        var params := Eval(p, env, st);
        Chained(st, hot, a, b, params, ps);
        Total(st, a, b, params, ps, EvalPairList(p, keys, env, params.st).st);
      }
    } else {
      ds := a;
      forall st | On(st, hot, ds) ensures Makes(st, ds, Eval(e, env, st), v) {
        assert Makes(st, a, Eval(p, env, st), ps);
      }
    }
  }

  lemma {:induction false} PairsAreDrawn(p: Expr, keys: seq<Value>, env: Env, hot: set<nat>, entries: seq<Value>)
    returns (ds: seq<Draw>)
    requires MayHavePairs(p, keys, env, hot, entries)
    ensures forall st | On(st, hot, ds) :: Makes(st, ds, EvalPairList(p, keys, env, st), entries)
    decreases p, 1, |keys|
  {
    hide On, OnlyDraws, Eval, MayHave;
    if keys == [] {
      ds := [];
      forall st | On(st, hot, ds) ensures Makes(st, ds, EvalPairList(p, keys, env, st), entries) { NothingDrawn(st); }
    } else {
      assert MayHavePair(p, keys[0], env, hot, entries[0]);
      var ps :| MayHave(p, env, hot, ps) && Args(ps, 2) && entries[0] == VEntry(keys[0], ps.items[1]);
      var a := IsDrawn(p, env, hot, ps);
      PairsRest(p, keys, env, hot, entries);
      var b := PairsAreDrawn(p, keys[1..], env, hot, entries[1..]);
      ds := a + b;
      assert entries == [VEntry(keys[0], ps.items[1])] + entries[1..];
      forall st | On(st, hot, ds) ensures Makes(st, ds, EvalPairList(p, keys, env, st), entries) {
        var params := Eval(p, env, st);
        Chained(st, hot, a, b, params, ps);
        Total(st, a, b, params, ps, EvalPairList(p, keys[1..], env, params.st).st);
      }
    }
  }

  lemma PairsRest(p: Expr, keys: seq<Value>, env: Env, hot: set<nat>, entries: seq<Value>)
    requires keys != [] && MayHavePairs(p, keys, env, hot, entries)
    ensures MayHavePairs(p, keys[1..], env, hot, entries[1..])
  {
    hide MayHavePair;
    forall i | 0 <= i < |keys[1..]| ensures MayHavePair(p, keys[1..][i], env, hot, entries[1..][i]) {
      assert MayHavePair(p, keys[i + 1], env, hot, entries[i + 1]);
    }
  }

  lemma NothingDrawn(st: Fuzz)
    ensures OnlyDraws(st, st)
  {
  }

  lemma {:induction false} LiteralIsDrawn(id: nat, ty: Ty, lit: Literal, env: Env, hot: set<nat>, v: Value)
    returns (ds: seq<Draw>)
    requires MayHaveLiteral(id, ty, lit, env, hot, v)
    ensures forall st | On(st, hot, ds) :: Makes(st, ds, EvalLiteral(id, ty, lit, env, st), v)
    decreases lit, 0
  {
    hide On, OnlyDraws, Eval, EvalElements, EvalEntries, EvalAll, MayHaveElements, MayHaveEntries, MayHave, PlainAtom;
    hide MayDrawAtom, TypeOf, MayWrap, FuzzVariant;
    match lit
    case LArray(items) => ds := ArrayIsDrawn(id, ty, items, env, hot, v.items);
    case LStruct(items) =>
      ds := AllAreDrawn(items, env, hot, v.items);
      forall st | On(st, hot, ds) ensures Makes(st, ds, EvalLiteral(id, ty, lit, env, st), v) {
        assert Makes(st, ds, EvalAll(items, env, st), v.items);
      }
    case LVariant(inner) => ds := VariantIsDrawn(id, ty, inner, env, hot, v.inner);
    case LDict(entries) => ds := DictIsDrawn(id, ty, entries, env, hot, v.items);
    case _ => ds := AtomIsDrawn(id, ty, lit, env, hot, v);
  }

  lemma {:induction false} ArrayIsDrawn(id: nat, ty: Ty, items: seq<Expr>, env: Env, hot: set<nat>, vs: seq<Value>)
    returns (ds: seq<Draw>)
    requires ty.TArray? && MayHaveElements(id, ty.elem, items, env, hot, vs)
    ensures forall st | On(st, hot, ds) ::
      Makes(st, ds, EvalLiteral(id, ty, LArray(items), env, st), VArray(ty.elem, vs))
    decreases items, 1
  {
    hide On, OnlyDraws, EvalElements, MayHaveElements;
    var b := ElementsAreDrawn(id, ty.elem, items, env, hot, vs);
    ds := if id in hot then [Flip(true)] + b else b;
    forall st | On(st, hot, ds)
      ensures Makes(st, ds, EvalLiteral(id, ty, LArray(items), env, st), VArray(ty.elem, vs))
    {
      Begins(id, st, hot, true, b, ds);
      var st0 := if id in hot then st.Advance() else st;
      var out := EvalElements(id, ty.elem, items, env, st0);
      Chain(st, st0, out.st);
    }
  }

  lemma {:induction false} DictIsDrawn(id: nat, ty: Ty, entries: seq<Entry>, env: Env, hot: set<nat>, vs: seq<Value>)
    returns (ds: seq<Draw>)
    requires ty.TArray? && MayHaveEntries(id, ty.elem, entries, env, hot, vs)
    ensures forall st | On(st, hot, ds) ::
      Makes(st, ds, EvalLiteral(id, ty, LDict(entries), env, st), VArray(ty.elem, vs))
    decreases entries, 1
  {
    hide On, OnlyDraws, EvalEntries, MayHaveEntries;
    var b := EntriesAreDrawn(id, ty.elem, entries, env, hot, vs);
    ds := if id in hot then [Flip(true)] + b else b;
    forall st | On(st, hot, ds)
      ensures Makes(st, ds, EvalLiteral(id, ty, LDict(entries), env, st), VArray(ty.elem, vs))
    {
      Begins(id, st, hot, true, b, ds);
      var st0 := if id in hot then st.Advance() else st;
      var out := EvalEntries(id, ty.elem, entries, env, st0);
      Chain(st, st0, out.st);
    }
  }

  /** If the node is fuzzed a coin is flipped first. */
  lemma Begins(id: nat, st: Fuzz, hot: set<nat>, heads: bool, b: seq<Draw>, ds: seq<Draw>)
    requires On(st, hot, ds) && ds == if id in hot then [Flip(heads)] + b else b
    ensures st.Fuzzes(id) <==> id in hot
    ensures var st0 := if id in hot then st.Advance() else st; On(st0, hot, b) && OnlyDraws(st, st0)
    ensures id in hot ==> st.Coin() == heads
  {
    hide Heats, OnlyDraws;
    Fuzzed(id, st, hot);
    if id in hot { OnNext(st, hot, Flip(heads), b); } else { NothingDrawn(st); }
  }

  lemma {:induction false} VariantIsDrawn(id: nat, ty: Ty, inner: Expr, env: Env, hot: set<nat>, v: Value)
    returns (ds: seq<Draw>)
    requires exists w :: MayHave(inner, env, hot, w) && (v == w || (id in hot && MayWrap(w, v)))
    ensures forall st | On(st, hot, ds) :: Makes(st, ds, EvalLiteral(id, ty, LVariant(inner), env, st), VVariant(v))
    decreases inner, 1
  {
    hide On, OnlyDraws, Eval, MayHave, FuzzVariant, MayWrap;
    var w :| MayHave(inner, env, hot, w) && (v == w || (id in hot && MayWrap(w, v)));
    var a := IsDrawn(inner, env, hot, w);
    var b := [];
    if id in hot { b := WrapIsDrawn(w, v); }
    ds := a + b;
    forall st | On(st, hot, ds) ensures Makes(st, ds, EvalLiteral(id, ty, LVariant(inner), env, st), VVariant(v)) {
      var out := Eval(inner, env, st);
      Chained(st, hot, a, b, out, w);
      OnFuzzes(id, out.st, hot, b);
      FuzzIntOnlyDraws(out.st);
      NothingDrawn(out.st);
      Total(st, a, b, out, w, if id in hot then FuzzVariant(w, out.st).st else out.st);
    }
  }

  lemma OnFuzzes(id: nat, st: Fuzz, hot: set<nat>, ds: seq<Draw>)
    requires On(st, hot, ds)
    ensures st.Fuzzes(id) <==> id in hot
  {
    Fuzzed(id, st, hot);
  }

  lemma WrapIsDrawn(w: Value, v: Value) returns (ds: seq<Draw>)
    requires v == w || MayWrap(w, v)
    ensures forall st, hot | On(st, hot, ds) ::
      FuzzVariant(w, st).res == Ok(VVariant(v)) && FuzzVariant(w, st).st.pos == st.pos + |ds|
  {
    hide On, TypeOf, FuzzInt, DrawsInt;
    if v == w {
      ds := [Flip(false)];
      NextDraws(ds);
    } else if v.VString? {
      ds := [Flip(true), Draw(0, v.s, 0.0, TBool)];
      NextDraws(ds);
    } else {
      var rest := DrawsInt(UInt32, 0, v.n);
      ds := [Flip(true)] + rest;
      forall st, hot | On(st, hot, ds)
        ensures FuzzVariant(w, st).res == Ok(VVariant(v)) && FuzzVariant(w, st).st.pos == st.pos + |ds|
      {
        OnNext(st, hot, Flip(true), rest);
        IntIsDrawn(UInt32, 0, v.n, st.Advance(), hot);
      }
    }
  }

  lemma {:induction false} AllAreDrawn(es: seq<Expr>, env: Env, hot: set<nat>, vs: seq<Value>)
    returns (ds: seq<Draw>)
    requires |vs| == |es| && forall i | 0 <= i < |es| :: MayHave(es[i], env, hot, vs[i])
    ensures forall st | On(st, hot, ds) :: Makes(st, ds, EvalAll(es, env, st), vs)
    decreases es, 0
  {
    hide On, OnlyDraws, Eval, MayHave;
    if es == [] {
      ds := [];
      forall st | On(st, hot, ds) ensures Makes(st, ds, EvalAll(es, env, st), vs) { NothingDrawn(st); }
    } else {
      var a := IsDrawn(es[0], env, hot, vs[0]);
      var b := AllAreDrawn(es[1..], env, hot, vs[1..]);
      ds := a + b;
      assert vs == [vs[0]] + vs[1..];
      forall st | On(st, hot, ds) ensures Makes(st, ds, EvalAll(es, env, st), vs) {
        var first := Eval(es[0], env, st);
        Chained(st, hot, a, b, first, vs[0]);
        Total(st, a, b, first, vs[0], EvalAll(es[1..], env, first.st).st);
      }
    }
  }

  lemma {:induction false} CloneIsDrawn(e: Expr, env: Env, hot: set<nat>, w: Value) returns (ds: seq<Draw>)
    requires e.Data? && hot != {} && MayHave(e, env, hot + {e.id}, w)
    ensures forall st | On(st, hot, ds) :: Makes(st, ds, FuzzClone(e, env, st), w)
    decreases e, 1
  {
    hide Heats, Eval, MayHave, OnlyDraws;
    ds := IsDrawn(e, env, hot + {e.id}, w);
    forall st | On(st, hot, ds) ensures Makes(st, ds, FuzzClone(e, env, st), w) {
      RaisedHeats(st, e.id, hot);
      var raised := Raised(st, e.id);
      forall i | 0 <= i < |ds| ensures Ahead(raised, i) == ds[i] { assert Ahead(st, i) == ds[i]; }
      assert On(raised, hot + {e.id}, ds);
      CloneOnlyDraws(e, env, st);
    }
  }

  /** What is drawn after an element's own value: whether it is repeated, and whether it is cloned. */
  lemma {:induction false} CopiesAreDrawn(id: nat, e: Expr, env: Env, hot: set<nat>, v: Value, vs: seq<Value>)
    returns (ds: seq<Draw>)
    requires MayRepeat(id, e, env, hot, v, vs)
    ensures forall st | On(st, hot, ds) :: Makes(st, ds, Multiplied(id, e, env, v, st), vs)
    decreases e, 2
  {
    hide On, OnlyDraws, MayHave, FuzzClone;
    if id !in hot {
      ds := [];
      forall st | On(st, hot, ds) ensures Makes(st, ds, Multiplied(id, e, env, v, st), vs) {
        OnFuzzes(id, st, hot, ds);
        NothingDrawn(st);
      }
    } else if vs == [v] || vs == [v, v] {
      var b := if e.Data? then [Flip(false)] else [];
      ds := [Flip(vs == [v, v])] + b;
      forall st | On(st, hot, ds) ensures Makes(st, ds, Multiplied(id, e, env, v, st), vs) {
        Repeats(id, st, hot, vs == [v, v], b);
        if e.Data? {
          assert b == [Flip(false)] + [];
          OnNext(st.Advance(), hot, Flip(false), []);
        }
        Chain(st, st.Advance(), st.Advance());
      }
    } else {
      var w :| MayHave(e, env, hot + {e.id}, w) && (vs == [v] + [w] || vs == [v, v] + [w]);
      var c := CloneIsDrawn(e, env, hot, w);
      var twice := vs == [v, v] + [w];
      ds := [Flip(twice)] + ([Flip(true)] + c);
      forall st | On(st, hot, ds) ensures Makes(st, ds, Multiplied(id, e, env, v, st), vs) {
        Repeats(id, st, hot, twice, [Flip(true)] + c);
        OnNext(st.Advance(), hot, Flip(true), c);
        var end := FuzzClone(e, env, st.Advance().Advance()).st;
        Chain(st, st.Advance(), st.Advance().Advance());
        Chain(st, st.Advance().Advance(), end);
      }
    }
  }

  lemma Repeats(id: nat, st: Fuzz, hot: set<nat>, heads: bool, b: seq<Draw>)
    requires On(st, hot, [Flip(heads)] + b) && id in hot
    ensures st.Fuzzes(id) && st.Coin() == heads && st.Advance().Fuzzes(id)
    ensures On(st.Advance(), hot, b) && OnlyDraws(st, st.Advance()) && OnlyDraws(st.Advance(), st.Advance())
  {
    hide On, OnlyDraws;
    OnFuzzes(id, st, hot, [Flip(heads)] + b);
    OnNext(st, hot, Flip(heads), b);
    OnFuzzes(id, st.Advance(), hot, b);
    NothingDrawn(st.Advance());
  }

  lemma {:induction false} ElementIsDrawn(id: nat, e: Expr, env: Env, hot: set<nat>, vs: seq<Value>)
    returns (ds: seq<Draw>)
    requires MayHaveElement(id, e, env, hot, vs)
    ensures forall st | On(st, hot, ds) :: Makes(st, ds, EvalElement(id, e, env, st), vs)
    decreases e, 3
  {
    hide On, OnlyDraws, Eval, MayHave, MayRepeat, EvalElement, Multiplied;
    if id in hot && vs == [] {
      ds := [Flip(true)];
      forall st | On(st, hot, ds) ensures Makes(st, ds, EvalElement(id, e, env, st), vs) {
        ElementParts(id, e, env, st);
        Begins(id, st, hot, true, [], ds);
      }
    } else {
      var v :| MayHave(e, env, hot, v) && MayRepeat(id, e, env, hot, v, vs);
      var a := IsDrawn(e, env, hot, v);
      var b := CopiesAreDrawn(id, e, env, hot, v, vs);
      ds := if id in hot then [Flip(false)] + (a + b) else a + b;
      forall st | On(st, hot, ds) ensures Makes(st, ds, EvalElement(id, e, env, st), vs) {
        ElementParts(id, e, env, st);
        Begins(id, st, hot, false, a + b, ds);
        var st0 := if id in hot then st.Advance() else st;
        var out := Eval(e, env, st0);
        Chained(st0, hot, a, b, out, v);
        var end := Multiplied(id, e, env, v, out.st).st;
        Total(st0, a, b, out, v, end);
        Chain(st, st0, end);
      }
    }
  }

  lemma ElementsStep(id: nat, elem: Ty, es: seq<Expr>, env: Env, st: Fuzz)
    requires es != [] && EvalElement(id, es[0], env, st).res.Ok?
    requires AllOf(elem, EvalElement(id, es[0], env, st).res.value)
    ensures var first := EvalElement(id, es[0], env, st);
      var rest := EvalElements(id, elem, es[1..], env, first.st);
      EvalElements(id, elem, es, env, st) ==
        if rest.res.Fail? then rest else Out(Ok(first.res.value + rest.res.value), rest.st)
  {
    hide EvalElement, TypeOf;
  }

  lemma {:induction false} ElementsAreDrawn(id: nat, elem: Ty, es: seq<Expr>, env: Env, hot: set<nat>, vs: seq<Value>)
    returns (ds: seq<Draw>)
    requires MayHaveElements(id, elem, es, env, hot, vs)
    ensures forall st | On(st, hot, ds) :: Makes(st, ds, EvalElements(id, elem, es, env, st), vs)
    decreases es, 0
  {
    hide On, OnlyDraws, EvalElement, MayHaveElement, TypeOf;
    if es == [] {
      ds := [];
      forall st | On(st, hot, ds) ensures Makes(st, ds, EvalElements(id, elem, es, env, st), vs) { NothingDrawn(st); }
    } else {
      var one, rest :| vs == one + rest && AllOf(elem, one)
        && MayHaveElement(id, es[0], env, hot, one) && MayHaveElements(id, elem, es[1..], env, hot, rest);
      var a := ElementIsDrawn(id, es[0], env, hot, one);
      var b := ElementsAreDrawn(id, elem, es[1..], env, hot, rest);
      ds := a + b;
      hide EvalElements, MayHaveElements, AllOf;
      forall st | On(st, hot, ds) ensures Makes(st, ds, EvalElements(id, elem, es, env, st), vs) {
        var out := EvalElement(id, es[0], env, st);
        Chained(st, hot, a, b, out, one);
        ElementsStep(id, elem, es, env, st);
        Total(st, a, b, out, one, EvalElements(id, elem, es[1..], env, out.st).st);
      }
    }
  }

  lemma {:induction false} CloneEntryIsDrawn(entry: Entry, v: Value, env: Env, hot: set<nat>, clone: Value)
    returns (ds: seq<Draw>)
    requires hot != {} && MayClone(entry, v, env, hot, clone)
    ensures forall st | On(st, hot, ds) :: Makes(st, ds, CloneEntry(entry, v, env, st), clone)
    decreases entry, 1
  {
    hide On, OnlyDraws, MayHave, FuzzClone;
    var a := CloneIsDrawn(entry.key, env, hot, clone.key);
    var c := [];
    if clone.val != v { c := CloneIsDrawn(entry.val, env, hot, clone.val); }
    var b := [Flip(clone.val != v)] + c;
    ds := a + b;
    forall st | On(st, hot, ds) ensures Makes(st, ds, CloneEntry(entry, v, env, st), clone) {
      var key := FuzzClone(entry.key, env, st);
      Chained(st, hot, a, b, key, clone.key);
      OnNext(key.st, hot, Flip(clone.val != v), c);
      var end := if clone.val != v then FuzzClone(entry.val, env, key.st.Advance()).st else key.st.Advance();
      NothingDrawn(key.st.Advance());
      Chain(key.st, key.st.Advance(), end);
      Total(st, a, b, key, clone.key, end);
    }
  }

  /** What is drawn after an entry's own key and value: whether it is cloned. */
  lemma {:induction false} DoubleIsDrawn(id: nat, entry: Entry, env: Env, hot: set<nat>, k: Value, v: Value,
                                         vs: seq<Value>)
    returns (ds: seq<Draw>)
    requires MayDouble(id, entry, env, hot, k, v, vs)
    ensures forall st | On(st, hot, ds) :: Makes(st, ds, Doubled(id, entry, env, k, v, st), vs)
    decreases entry, 2
  {
    hide On, OnlyDraws, MayClone, CloneEntry;
    if vs == [VEntry(k, v)] {
      var tossed := id in hot && entry.key.Data? && entry.val.Data?;
      ds := if tossed then [Flip(false)] + [] else [];
      forall st | On(st, hot, ds) ensures Makes(st, ds, Doubled(id, entry, env, k, v, st), vs) {
        OnFuzzes(id, st, hot, ds);
        NothingDrawn(st);
        if tossed { OnNext(st, hot, Flip(false), []); }
      }
    } else {
      var clone :| MayClone(entry, v, env, hot, clone) && vs == [VEntry(k, v)] + [clone];
      ClonedData(entry, v, env, hot, clone);
      var c := CloneEntryIsDrawn(entry, v, env, hot, clone);
      ds := [Flip(true)] + c;
      forall st | On(st, hot, ds) ensures Makes(st, ds, Doubled(id, entry, env, k, v, st), vs) {
        OnFuzzes(id, st, hot, ds);
        OnNext(st, hot, Flip(true), c);
        Chain(st, st.Advance(), CloneEntry(entry, v, env, st.Advance()).st);
      }
    }
  }

  lemma ClonedData(entry: Entry, v: Value, env: Env, hot: set<nat>, clone: Value)
    requires MayClone(entry, v, env, hot, clone)
    ensures entry.key.Data? && entry.val.Data?
  {
    hide MayHave;
  }

  lemma {:induction false} EntryIsDrawn(id: nat, entry: Entry, env: Env, hot: set<nat>, vs: seq<Value>)
    returns (ds: seq<Draw>)
    requires MayHaveEntry(id, entry, env, hot, vs)
    ensures forall st | On(st, hot, ds) :: Makes(st, ds, EvalEntry(id, entry, env, st), vs)
    decreases entry, 3
  {
    hide On, OnlyDraws, Eval, MayHave, MayDouble, EvalEntry, Doubled;
    if id in hot && vs == [] {
      ds := [Flip(true)];
      forall st | On(st, hot, ds) ensures Makes(st, ds, EvalEntry(id, entry, env, st), vs) {
        EntryParts(id, entry, env, st);
        Begins(id, st, hot, true, [], ds);
      }
    } else {
      var k, v :| MayHave(entry.key, env, hot, k) && MayHave(entry.val, env, hot, v)
        && MayDouble(id, entry, env, hot, k, v, vs);
      var a := IsDrawn(entry.key, env, hot, k);
      var b := IsDrawn(entry.val, env, hot, v);
      var c := DoubleIsDrawn(id, entry, env, hot, k, v, vs);
      ds := if id in hot then [Flip(false)] + (a + (b + c)) else a + (b + c);
      forall st | On(st, hot, ds) ensures Makes(st, ds, EvalEntry(id, entry, env, st), vs) {
        EntryParts(id, entry, env, st);
        Begins(id, st, hot, false, a + (b + c), ds);
        var st0 := if id in hot then st.Advance() else st;
        var key := Eval(entry.key, env, st0);
        Chained(st0, hot, a, b + c, key, k);
        var val := Eval(entry.val, env, key.st);
        Chained(key.st, hot, b, c, val, v);
        var end := Doubled(id, entry, env, k, v, val.st).st;
        Total(key.st, b, c, val, v, end);
        Total(st0, a, b + c, key, k, end);
        Chain(st, st0, end);
      }
    }
  }

  lemma EntriesStep(id: nat, elem: Ty, es: seq<Entry>, env: Env, st: Fuzz)
    requires es != [] && EvalEntry(id, es[0], env, st).res.Ok?
    requires AllEntriesOf(elem, EvalEntry(id, es[0], env, st).res.value)
    ensures var first := EvalEntry(id, es[0], env, st);
      var rest := EvalEntries(id, elem, es[1..], env, first.st);
      EvalEntries(id, elem, es, env, st) ==
        if rest.res.Fail? then rest else Out(Ok(first.res.value + rest.res.value), rest.st)
  {
    hide EvalEntry, IsEntryOf;
  }

  lemma {:induction false} EntriesAreDrawn(id: nat, elem: Ty, es: seq<Entry>, env: Env, hot: set<nat>, vs: seq<Value>)
    returns (ds: seq<Draw>)
    requires MayHaveEntries(id, elem, es, env, hot, vs)
    ensures forall st | On(st, hot, ds) :: Makes(st, ds, EvalEntries(id, elem, es, env, st), vs)
    decreases es, 0
  {
    hide On, OnlyDraws, EvalEntry, MayHaveEntry, IsEntryOf;
    if es == [] {
      ds := [];
      forall st | On(st, hot, ds) ensures Makes(st, ds, EvalEntries(id, elem, es, env, st), vs) { NothingDrawn(st); }
    } else {
      var one, rest :| vs == one + rest && AllEntriesOf(elem, one)
        && MayHaveEntry(id, es[0], env, hot, one) && MayHaveEntries(id, elem, es[1..], env, hot, rest);
      var a := EntryIsDrawn(id, es[0], env, hot, one);
      var b := EntriesAreDrawn(id, elem, es[1..], env, hot, rest);
      ds := a + b;
      hide EvalEntries, MayHaveEntries, AllEntriesOf;
      forall st | On(st, hot, ds) ensures Makes(st, ds, EvalEntries(id, elem, es, env, st), vs) {
        var out := EvalEntry(id, es[0], env, st);
        Chained(st, hot, a, b, out, one);
        EntriesStep(id, elem, es, env, st);
        Total(st, a, b, out, one, EvalEntries(id, elem, es[1..], env, out.st).st);
      }
    }
  }

  // ----- the result -------------------------------------------------------------------------------

  /** The state, with these draws next. */
  function WithDraws(st: Fuzz, ds: seq<Draw>): Fuzz {
    st.(tape := (i: nat) => if st.pos <= i < st.pos + |ds| then ds[i - st.pos] else Pick(0))
  }

  /** Some draws give the expression the value. */
  ghost predicate CanHave(e: Expr, env: Env, st: Fuzz, v: Value) {
    exists tape :: Eval(e, env, st.(tape := tape)).res == Ok(v)
  }

  /**
   Some draws give a value just when the semantics allows it with the nodes that are fuzzed. So it depends on which
   nodes have a weight at all, and on nothing else about the weights.
   */
  lemma CanHaveIff(e: Expr, env: Env, st: Fuzz, v: Value)
    ensures CanHave(e, env, st, v) <==> MayHave(e, env, Hot(st), v)
  {
    hide Eval, MayHave, Heats, Hot, WithDraws;
    if CanHave(e, env, st, v) {
      var tape :| Eval(e, env, st.(tape := tape)).res == Ok(v);
      HotHeats(st.(tape := tape));
      SameHot(st, tape);
      EvalMayHave(e, env, st.(tape := tape), Hot(st));
    }
    if MayHave(e, env, Hot(st), v) {
      var ds := IsDrawn(e, env, Hot(st), v);
      WithDrawsOn(st, ds);
      assert Eval(e, env, st.(tape := WithDraws(st, ds).tape)).res == Ok(v);
    }
  }

  lemma WithDrawsOn(st: Fuzz, ds: seq<Draw>)
    ensures On(WithDraws(st, ds), Hot(st), ds) && WithDraws(st, ds) == st.(tape := WithDraws(st, ds).tape)
  {
    hide Heats;
    HotHeats(WithDraws(st, ds));
    SameHot(st, WithDraws(st, ds).tape);
  }

  lemma SameHot(st: Fuzz, tape: nat -> Draw)
    ensures Hot(st.(tape := tape)) == Hot(st)
  {
  }

  /** Where nothing is fuzzed the one value is the plain one, and fuzzing can always leave that as it is. */
  lemma PlainMayHave(e: Expr, env: Env, hot: set<nat>, v: Value)
    ensures MayHave(e, env, {}, v) <==> Plain(e, env) == Ok(v)
    ensures Plain(e, env) == Ok(v) ==> MayHave(e, env, hot, v)
  {
    hide Eval, MayHave, OnlyDraws;
    CanHaveIff(e, env, QUIET, v);
    assert Hot(QUIET) == {};
    if tape :| Eval(e, env, QUIET.(tape := tape)).res == Ok(v) {
      FuzzingOffIsDeterministic(e, env, QUIET.(tape := tape), QUIET);
    }
    PlainIsQuiet(e, env);
    if Plain(e, env) == Ok(v) { MoreMayHave(e, env, {}, hot, v); }
  }

  lemma PlainIsQuiet(e: Expr, env: Env)
    ensures Plain(e, env).Ok? ==> CanHave(e, env, QUIET, Plain(e, env).value)
  {
    hide Eval;
    assert QUIET.(tape := QUIET.tape) == QUIET;
  }
}
