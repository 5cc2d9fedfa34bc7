/**
 The assertion of dictSet() fails only on a dictionary that holds a key twice. Expressions without a source
 of repeated keys never make such a dictionary out of variables that hold none, however they are fuzzed,
 so for them dictSet() is safe.
 */
module UniqueKeys {
  import opened Results
  import opened VariantTypes
  import opened Containers
  import opened Language
  import opened Evaluator
  import opened EffectFree
  import opened TypeSoundness

  // ----- values -----------------------------------------------------------------------------------

  /** No dictionary inside, at any depth, holds a key twice. */
  predicate UniqueValue(v: Value) {
    match v
    case VVariant(inner) => UniqueValue(inner)
    case VArray(_, items) => UniqueItems(items) && NoneTwice(items)
    case VTuple(items) => UniqueItems(items)
    case VEntry(k, w) => UniqueValue(k) && UniqueValue(w)
    case _ => true
  }

  predicate UniqueItems(vs: seq<Value>) {
    forall i | 0 <= i < |vs| :: UniqueValue(vs[i])
  }

  /** Of the entries among the items, no two have one key. */
  predicate NoneTwice(items: seq<Value>) {
    forall i, j | 0 <= i < j < |items| && items[i].VEntry? && items[j].VEntry? :: items[i].key != items[j].key
  }

  predicate UniqueTable(m: map<string, Variable>) {
    forall x | x in m && m[x].value.Some? :: UniqueValue(m[x].value.value)
  }

  predicate UniqueEnv(env: Env) {
    UniqueTable(env.locals) && UniqueTable(env.objects)
  }

  predicate UniqueResult(r: Result<Value>) {
    match r
    case Ok(v) => UniqueValue(v)
    case Fail(f) => !f.DuplicateKey?
  }

  predicate UniqueResults(r: Result<seq<Value>>) {
    match r
    case Ok(vs) => UniqueItems(vs)
    case Fail(f) => !f.DuplicateKey?
  }

  // ----- expressions ------------------------------------------------------------------------------

  /** Literals that are evaluated to the same value every time, as long as they are not fuzzed. */
  function Constant(e: Expr): Option<Value> {
    match e
    case Data(_, _, lit) => (
      match lit
      case LBool(b) => Some(VBool(b))
      case LInt(k, n) => Some(VInt(k, n))
      case LDouble(x) => Some(VDouble(x))
      case LString(s) => Some(VString(s))
      case LPath(p) => Some(VPath(p))
      case LSignature(t) => Some(VSignature(t))
      case _ => None)
    case _ => None
  }

  /** A constant that is never fuzzed. */
  predicate Steady(e: Expr, hot: set<nat>) {
    Constant(e).Some? && e.id !in hot
  }

  predicate SteadyKeys(entries: seq<Entry>, hot: set<nat>) {
    forall i, j | 0 <= i < j < |entries| ::
      && Steady(entries[i].key, hot) && Steady(entries[j].key, hot)
      && Constant(entries[i].key) != Constant(entries[j].key)
  }

  predicate SteadyItems(items: seq<Expr>, hot: set<nat>) {
    && (forall i | 0 <= i < |items| :: Steady(items[i], hot))
    && forall i, j | 0 <= i < j < |items| :: Constant(items[i]) != Constant(items[j])
  }

  /** An expression whose items never repeat: the keys of a dictionary, or different constants that are not fuzzed. */
  predicate ListsOnce(e: Expr, hot: set<nat>) {
    match e
    case Call(fn, _) => fn.FKeys?
    case Data(id, _, lit) => lit.LArray? && id !in hot && SteadyItems(lit.items, hot)
    case _ => false
  }

  /** The parameters of pairKeys() whose keys never repeat. */
  predicate PairsOnce(p: Expr, hot: set<nat>) {
    match p
    case Data(_, _, lit) => lit.LStruct? && |lit.items| == 2 && ListsOnce(lit.items[0], hot)
    case _ => false
  }

  predicate InsertsEntry(p: Option<Ty>) {
    p.Some? && p.value.TTuple? && |p.value.items| == 3 && p.value.items[2].TEntry?
  }

  /**
   The expression has no source of repeated keys, if only the nodes in hot are ever fuzzed. Sources are
   pairKeys() on keys that may repeat, arrayInsert() of an entry, an array literal of entries, and a dictionary
   literal that is fuzzed or whose keys are not different constants that are not fuzzed. Fuzzing an array
   literal may clone its children, and a clone is fuzzed whatever its own weight, so they must be in hot as well.
   */
  predicate RepeatFree(e: Expr, env: Env, hot: set<nat>)
    decreases e
  {
    match e
    case Data(id, _, lit) => RepeatFreeLiteral(id, lit, env, hot)
    case Not(c) => RepeatFree(c, env, hot)
    case Binary(_, l, r) => RepeatFree(l, env, hot) && RepeatFree(r, env, hot)
    case Call(fn, p) =>
      && RepeatFree(p, env, hot)
      && (fn.FPairKeys? ==> PairsOnce(p, hot))
      && (fn.FArrayInsert? ==> !InsertsEntry(Check(p, env)))
  }

  predicate RepeatFreeLiteral(id: nat, lit: Literal, env: Env, hot: set<nat>)
    decreases lit
  {
    match lit
    case LArray(items) =>
      forall i | 0 <= i < |items| ::
        && RepeatFree(items[i], env, hot) && !(Check(items[i], env).Some? && Check(items[i], env).value.TEntry?)
        && ClonesHot(id, items[i], hot)
    case LStruct(items) => forall i | 0 <= i < |items| :: RepeatFree(items[i], env, hot)
    case LVariant(inner) => RepeatFree(inner, env, hot)
    case LDict(entries) =>
      && (forall i | 0 <= i < |entries| :: RepeatFreeEntry(entries[i], env, hot))
      && SteadyKeys(entries, hot) && (id in hot ==> entries == [])
    case _ => true
  }

  /** A child that an array literal may clone is among the nodes that may be fuzzed. */
  predicate ClonesHot(id: nat, child: Expr, hot: set<nat>) {
    id in hot && child.Data? ==> child.id in hot
  }

  predicate RepeatFreeEntry(entry: Entry, env: Env, hot: set<nat>)
    decreases entry
  {
    RepeatFree(entry.key, env, hot) && RepeatFree(entry.val, env, hot)
  }

  /** Like the checker, it looks only at types. */
  lemma {:induction false} RepeatFreeDependsOnTypes(e: Expr, env: Env, env': Env, hot: set<nat>)
    requires SameTypes(env, env')
    ensures RepeatFree(e, env, hot) == RepeatFree(e, env', hot)
    decreases e
  {
    hide Check;
    match e
    case Data(id, _, lit) => RepeatFreeLiteralDependsOnTypes(id, lit, env, env', hot);
    case Not(c) => RepeatFreeDependsOnTypes(c, env, env', hot);
    case Binary(_, l, r) =>
      RepeatFreeDependsOnTypes(l, env, env', hot);
      RepeatFreeDependsOnTypes(r, env, env', hot);
    case Call(_, p) =>
      RepeatFreeDependsOnTypes(p, env, env', hot);
      CheckDependsOnTypes(p, env, env');
  }

  lemma {:induction false} RepeatFreeLiteralDependsOnTypes(id: nat, lit: Literal, env: Env, env': Env, hot: set<nat>)
    requires SameTypes(env, env')
    ensures RepeatFreeLiteral(id, lit, env, hot) == RepeatFreeLiteral(id, lit, env', hot)
    decreases lit
  {
    hide Check, SameTypes;
    match lit
    case LArray(items) =>
      forall i | 0 <= i < |items|
        ensures RepeatFree(items[i], env, hot) == RepeatFree(items[i], env', hot)
        ensures Check(items[i], env) == Check(items[i], env')
      {
        RepeatFreeDependsOnTypes(items[i], env, env', hot);
        CheckDependsOnTypes(items[i], env, env');
      }
    case LStruct(items) =>
      forall i | 0 <= i < |items| ensures RepeatFree(items[i], env, hot) == RepeatFree(items[i], env', hot) {
        RepeatFreeDependsOnTypes(items[i], env, env', hot);
      }
    case LVariant(inner) => RepeatFreeDependsOnTypes(inner, env, env', hot);
    case LDict(entries) =>
      forall i | 0 <= i < |entries|
        ensures RepeatFreeEntry(entries[i], env, hot) == RepeatFreeEntry(entries[i], env', hot)
      {
        RepeatFreeDependsOnTypes(entries[i].key, env, env', hot);
        RepeatFreeDependsOnTypes(entries[i].val, env, env', hot);
      }
    case _ =>
  }

  // ----- builtin functions ------------------------------------------------------------------------

  lemma NoneTwiceIsUnique(d: seq<Value>)
    requires IsDict(d)
    ensures NoneTwice(d) <==> Containers.UniqueKeys(d)
  {
  }

  lemma NotEntriesNoneTwice(vs: seq<Value>, t: Ty)
    requires AllOfType(vs, t) && !t.TEntry?
    ensures NoneTwice(vs)
  {
    forall i | 0 <= i < |vs| ensures !vs[i].VEntry? { assert HasType(vs[i], t); }
  }

  lemma ArgumentsUnique(p: Value)
    requires UniqueValue(p) && p.VTuple?
    ensures forall i | 0 <= i < |p.items| :: UniqueValue(p.items[i])
    ensures forall i | 0 <= i < |p.items| && p.items[i].VArray? ::
      UniqueItems(p.items[i].items) && NoneTwice(p.items[i].items)
    ensures forall i | 0 <= i < |p.items| && p.items[i].VTuple? :: UniqueItems(p.items[i].items)
  {
    forall i | 0 <= i < |p.items| ensures UniqueValue(p.items[i]) {}
  }

  lemma BuildUnique(ret: Ty, items: seq<Value>)
    requires UniqueItems(items) && NoneTwice(items)
    ensures UniqueResult(Build(ret, items))
  {
  }

  /** The builtin functions but pairKeys() keep keys unique, and then dictSet() succeeds. */
  lemma ApplyFunctionUnique(fn: Function, ret: Ty, p: Value)
    requires UniqueValue(p) && !fn.FPairKeys?
    requires fn.FKeys? ==> ret.TArray? && !ret.elem.TEntry?
    requires fn.FArrayInsert? ==> p.VTuple? && |p.items| == 3 && !p.items[2].VEntry?
    ensures UniqueResult(ApplyFunction(fn, ret, p))
  {
    if fn.FArrayGet? || fn.FArrayInsert? || fn.FArrayRemove? || fn.FStructHead? {
      ArrayFunctionUnique(fn, ret, p);
    } else {
      DictFunctionUnique(fn, ret, p);
    }
  }

  lemma ArrayFunctionUnique(fn: Function, ret: Ty, p: Value)
    requires UniqueValue(p) && (fn.FArrayGet? || fn.FArrayInsert? || fn.FArrayRemove? || fn.FStructHead?)
    requires fn.FArrayInsert? ==> p.VTuple? && |p.items| == 3 && !p.items[2].VEntry?
    ensures UniqueResult(ApplyFunction(fn, ret, p))
  {
    hide TypeOf, UniqueItems, NoneTwice, Build, InsertAt, RemoveAt;
    if p.VTuple? {
      ArgumentsUnique(p);
      if |p.items| > 1 && p.items[0].VArray? && IsIndex(p.items[1]) {
        var a, n := p.items[0].items, p.items[1].n;
        ItemUnique(a, n);
        RemoveUnique(a, n);
        BuildUnique(ret, RemoveAt(a, n));
        if fn.FArrayInsert? {
          InsertUnique(a, n, p.items[2]);
          BuildUnique(ret, InsertAt(a, n, p.items[2]));
        }
      }
      if |p.items| == 1 && p.items[0].VTuple? { ItemUnique(p.items[0].items, 0); }
    }
  }

  lemma DictFunctionUnique(fn: Function, ret: Ty, p: Value)
    requires UniqueValue(p) && !fn.FPairKeys?
    requires !fn.FArrayGet? && !fn.FArrayInsert? && !fn.FArrayRemove? && !fn.FStructHead?
    requires fn.FKeys? ==> ret.TArray? && !ret.elem.TEntry?
    ensures UniqueResult(ApplyFunction(fn, ret, p))
  {
    hide TypeOf, UniqueItems, NoneTwice, Build, Keys, DictSet, DictUnset, DictGet, EntriesToTuples, Join;
    if p.VTuple? {
      ArgumentsUnique(p);
      if |p.items| >= 1 && DictValue(p.items[0]) {
        var d := p.items[0].items;
        TuplesUnique(d);
        BuildUnique(ret, EntriesToTuples(d));
        if |p.items| >= 2 {
          UnsetUnique(d, p.items[1]);
          BuildUnique(ret, DictUnset(d, p.items[1]));
        }
        if |p.items| >= 3 {
          GetUnique(d, p.items[1], p.items[2]);
          SetUnique(d, p.items[1], p.items[2]);
          BuildUnique(ret, DictSet(d, p.items[1], p.items[2]).value);
        }
      }
    }
    if fn.FKeys? && DictValue(p) { KeysUnique(p.items, ret); }
  }

  lemma ItemUnique(vs: seq<Value>, i: nat)
    requires UniqueItems(vs)
    ensures i < |vs| ==> UniqueValue(vs[i])
  {
  }

  lemma KeysUnique(d: seq<Value>, ret: Ty)
    requires IsDict(d) && UniqueItems(d) && ret.TArray? && !ret.elem.TEntry?
    ensures UniqueResult(Build(ret, Keys(d)))
  {
    forall i | 0 <= i < |d| ensures UniqueValue(Keys(d)[i]) { assert UniqueValue(d[i]); }
  }

  lemma InsertUnique(a: seq<Value>, index: nat, v: Value)
    requires UniqueItems(a) && NoneTwice(a) && UniqueValue(v) && !v.VEntry?
    ensures UniqueItems(InsertAt(a, index, v)) && NoneTwice(InsertAt(a, index, v))
  {
  }

  lemma RemoveUnique(a: seq<Value>, index: nat)
    requires UniqueItems(a) && NoneTwice(a)
    ensures UniqueItems(RemoveAt(a, index)) && NoneTwice(RemoveAt(a, index))
  {
  }

  lemma SetUnique(d: seq<Value>, k: Value, v: Value)
    requires IsDict(d) && UniqueItems(d) && NoneTwice(d) && UniqueValue(k) && UniqueValue(v)
    ensures DictSet(d, k, v).Ok?
    ensures UniqueItems(DictSet(d, k, v).value) && NoneTwice(DictSet(d, k, v).value)
  {
    DictSetFails(d, k, v);
    DictSetKeepsUnique(d, k, v);
    NoneTwiceIsUnique(DictSet(d, k, v).value);
  }

  lemma UnsetUnique(d: seq<Value>, k: Value)
    requires IsDict(d) && UniqueItems(d) && NoneTwice(d)
    ensures UniqueItems(DictUnset(d, k)) && NoneTwice(DictUnset(d, k))
  {
    DictUnsetKeepsUnique(d, k);
    NoneTwiceIsUnique(DictUnset(d, k));
    forall e | e in DictUnset(d, k) ensures UniqueValue(e) { assert e in d; }
  }

  lemma {:induction false} GetUnique(d: seq<Value>, k: Value, default: Value)
    requires IsDict(d) && UniqueItems(d) && UniqueValue(default)
    ensures UniqueValue(DictGet(d, k, default))
  {
    if d != [] { GetUnique(d[1..], k, default); }
  }

  lemma TuplesUnique(d: seq<Value>)
    requires IsDict(d) && UniqueItems(d)
    ensures UniqueItems(EntriesToTuples(d)) && NoneTwice(EntriesToTuples(d))
  {
    var ts := EntriesToTuples(d);
    forall i | 0 <= i < |ts| ensures UniqueValue(ts[i]) && !ts[i].VEntry? {
      assert UniqueValue(d[i]) && ts[i].items == [d[i].key, d[i].val];
    }
  }

  lemma ApplyBinaryUnique(op: BinOp, l: Value, r: Value)
    ensures UniqueResult(ApplyBinary(op, l, r))
  {
  }

  // ----- evaluation -------------------------------------------------------------------------------

  /** What evaluation needs: a guarded expression without sources of repeated keys, and variables without any. */
  predicate Clean(e: Expr, env: Env, hot: set<nat>) {
    Ready(e, env) && RepeatFree(e, env, hot)
  }

  /** Only these nodes may be fuzzed. */
  ghost predicate HotOnly(st: Fuzz, hot: set<nat>) {
    forall id: nat :: st.Fuzzes(id) ==> id in hot
  }

  /** Only these nodes have a weight, so only they may be fuzzed if fuzzing is switched on. */
  ghost predicate Weighted(st: Fuzz, hot: set<nat>) {
    forall id: nat :: st.Weight(id) > 0.0 ==> id in hot
  }

  ghost predicate CleanStore(env: Env, st: Fuzz, hot: set<nat>) {
    Conforms(env) && UniqueEnv(env) && HotOnly(st, hot)
  }

  lemma DrawnStore(env: Env, st: Fuzz, hot: set<nat>, st': Fuzz)
    requires CleanStore(env, st, hot) && OnlyDraws(st, st')
    ensures CleanStore(env, st', hot)
  {
  }

  /** Whatever is drawn, evaluation makes no dictionary that holds a key twice, and dictSet() never fails. */
  lemma {:induction false} EvalUnique(e: Expr, env: Env, st: Fuzz, hot: set<nat>)
    requires CleanStore(env, st, hot) && Clean(e, env, hot)
    ensures UniqueResult(Eval(e, env, st).res)
    decreases e, 0
  {
    hide CleanStore, UniqueValue, ApplyBinary;
    match e
    case Data(id, _, lit) =>
      StoreTypes(env, st, hot);
      AcceptedLiteralReady(e, env);
      EvalLiteralUnique(id, Check(e, env).value, lit, env, st, hot);
    case Not(c) =>
      EvalUnique(c, env, st, hot);
      NegationUnique(Eval(c, env, st).res);
    case Binary(op, l, r) =>
      EvalUnique(l, env, st, hot);
      EvalOnlyDraws(l, env, st);
      var left := Eval(l, env, st);
      DrawnStore(env, st, hot, left.st);
      EvalUnique(r, env, left.st, hot);
      var right := Eval(r, env, left.st);
      if left.res.Ok? && right.res.Ok? { ApplyBinaryUnique(op, left.res.value, right.res.value); }
    case Call(fn, p) => EvalCallUnique(fn, p, env, st, hot);
  }

  lemma StoreTypes(env: Env, st: Fuzz, hot: set<nat>)
    requires CleanStore(env, st, hot)
    ensures Conforms(env) && UsableTypes(env)
  {
  }

  lemma NegationUnique(r: Result<Value>)
    ensures r.Ok? && r.value.VBool? ==> UniqueResult(Ok(VBool(!r.value.b)))
  {
  }

  lemma {:induction false} EvalCallUnique(fn: Function, p: Expr, env: Env, st: Fuzz, hot: set<nat>)
    requires CleanStore(env, st, hot) && Clean(Call(fn, p), env, hot)
    ensures UniqueResult(Eval(Call(fn, p), env, st).res)
    decreases p, 3
  {
    hide CleanStore, UniqueValue, Conforms, RepeatFreeLiteral, ApplyFunction, UsableTypes;
    EvalUnique(p, env, st, hot);
    EvalOnlyDraws(p, env, st);
    var params := Eval(p, env, st);
    DrawnStore(env, st, hot, params.st);
    if params.res.Ok? {
      var pt := Check(p, env).value;
      StoreTypes(env, st, hot);
      AlwaysTame(p, env);
      EvalSound(p, env, st, UNTYPABLE);
      if fn.FPairKeys? {
        if Args(params.res.value, 2) && params.res.value.items[0].VArray? {
          EvalPairsUnique(p, FunctionType(fn, pt).value, params.res.value, env, st, params.st, hot);
        }
      } else {
        ParametersFit(fn, pt, params.res.value);
        ApplyFunctionUnique(fn, FunctionType(fn, pt).value, params.res.value);
      }
    }
  }

  lemma ParametersFit(fn: Function, pt: Ty, v: Value)
    requires FunctionType(fn, pt).Some? && HasType(v, pt) && (fn.FArrayInsert? ==> !InsertsEntry(Some(pt)))
    ensures fn.FKeys? ==> FunctionType(fn, pt).value.TArray? && !FunctionType(fn, pt).value.elem.TEntry?
    ensures fn.FArrayInsert? ==> v.VTuple? && |v.items| == 3 && !v.items[2].VEntry?
  {
    if fn.FArrayInsert? { TupleItems(v, pt.items); }
  }

  predicate NoRepeats(vs: seq<Value>) {
    forall i, j | 0 <= i < j < |vs| :: vs[i] != vs[j]
  }

  lemma {:induction false} EvalPairsUnique(p: Expr, ret: Ty, v: Value, env: Env, st: Fuzz, st': Fuzz, hot: set<nat>)
    requires CleanStore(env, st, hot) && CleanStore(env, st', hot) && Clean(p, env, hot) && PairsOnce(p, hot)
    requires Eval(p, env, st).res == Ok(v) && UniqueValue(v) && Args(v, 2) && v.items[0].VArray?
    ensures UniqueResult(EvalPairs(p, ret, v.items[0].items, env, st').res)
    decreases p, 2
  {
    hide CleanStore, Clean, UniqueValue, Eval, TypeOf, PairsOnce;
    var keys := v.items[0].items;
    PairedKeysDiffer(p, v, env, st, hot);
    ArgumentsUnique(v);
    EvalPairListUnique(p, keys, env, st', hot);
    var out := EvalPairList(p, keys, env, st');
    if out.res.Ok? { BuildUnique(ret, out.res.value); }
  }

  /** The keys of a dictionary without repeated keys do not repeat, nor do different constants. */
  lemma {:induction false} PairedKeysDiffer(p: Expr, v: Value, env: Env, st: Fuzz, hot: set<nat>)
    requires CleanStore(env, st, hot) && Clean(p, env, hot) && PairsOnce(p, hot)
    requires Eval(p, env, st).res == Ok(v) && Args(v, 2) && v.items[0].VArray?
    ensures NoRepeats(v.items[0].items)
    decreases p, 1
  {
    hide CleanStore, UniqueValue, WellFormed, TypeOf, Clean, SteadyItems;
    StoreTypes(env, st, hot);
    FirstItem(p, v, env, st, hot);
    CleanPart(p, env, hot);
    var e := p.lit.items[0];
    if e.Call? {
      CleanParameters(e, env, hot);
      EvalUnique(e.params, env, st, hot);
      var d := Eval(e.params, env, st).res.value;
      DictUnique(d);
      assert v.items[0].items == Keys(d.items);
    } else {
      ConstantsDiffer(e, v.items[0], env, st, hot);
    }
  }

  lemma DictUnique(d: Value)
    requires UniqueValue(d) && DictValue(d)
    ensures NoRepeats(Keys(d.items))
  {
  }

  lemma CleanPart(p: Expr, env: Env, hot: set<nat>)
    requires UsableTypes(env) && Clean(p, env, hot) && PairsOnce(p, hot)
    ensures Clean(p.lit.items[0], env, hot)
  {
    AcceptedLiteralReady(p, env);
    ItemsReady(Check(p, env).value, p.lit.items, env);
    assert RepeatFreeLiteral(p.id, p.lit, env, hot);
  }

  lemma CleanParameters(e: Expr, env: Env, hot: set<nat>)
    requires e.Call? && Clean(e, env, hot)
    ensures Clean(e.params, env, hot)
  {
  }

  lemma FirstItem(p: Expr, v: Value, env: Env, st: Fuzz, hot: set<nat>)
    requires PairsOnce(p, hot) && Eval(p, env, st).res == Ok(v) && Args(v, 2)
    ensures Eval(p.lit.items[0], env, st).res == Ok(v.items[0])
  {
    hide Check, ListsOnce;
    var ty := Check(p, env).value;
    assert EvalLiteral(p.id, ty, p.lit, env, st).res == Ok(v);
    assert EvalAll(p.lit.items, env, st).res == Ok(v.items);
  }

  /** An array literal of different constants, none of them fuzzed, has different items. */
  lemma ConstantsDiffer(e: Expr, v: Value, env: Env, st: Fuzz, hot: set<nat>)
    requires CleanStore(env, st, hot) && Clean(e, env, hot) && e.Data? && ListsOnce(e, hot)
    requires Eval(e, env, st).res == Ok(v) && v.VArray?
    ensures NoRepeats(v.items)
  {
    hide WellFormed, TypeOf, Conforms, UniqueEnv, CheckLiteral, Guarded, EvalElements, Constant;
    StoreTypes(env, st, hot);
    AcceptedLiteralReady(e, env);
    var ty := Check(e, env).value;
    ElementsReady(e.lit.items, ty, env);
    assert EvalElements(e.id, ty.elem, e.lit.items, env, st).res == Ok(v.items);
    ConstantsAreRead(e.id, ty.elem, e.lit.items, env, st, hot);
  }

  lemma {:induction false} ConstantsAreRead(id: nat, elem: Ty, es: seq<Expr>, env: Env, st: Fuzz, hot: set<nat>)
    requires HotOnly(st, hot) && id !in hot && forall i | 0 <= i < |es| :: Ready(es[i], env) && Steady(es[i], hot)
    requires EvalElements(id, elem, es, env, st).res.Ok?
    ensures var vs := EvalElements(id, elem, es, env, st).res.value;
      |vs| == |es| && forall i | 0 <= i < |es| :: Constant(es[i]) == Some(vs[i])
    decreases |es|
  {
    hide Ready, Constant;
    if es != [] {
      ConstantIsRead(es[0], env, st);
      assert EvalElement(id, es[0], env, st) == Out(Ok([Constant(es[0]).value]), st);
      ConstantsAreRead(id, elem, es[1..], env, st, hot);
    }
  }

  lemma {:induction false} EvalPairListUnique(p: Expr, keys: seq<Value>, env: Env, st: Fuzz, hot: set<nat>)
    requires CleanStore(env, st, hot) && Clean(p, env, hot) && UniqueItems(keys) && NoRepeats(keys)
    ensures UniqueResults(EvalPairList(p, keys, env, st).res)
    ensures EvalPairList(p, keys, env, st).res.Ok? ==> EntriesFor(keys, EvalPairList(p, keys, env, st).res.value)
    ensures EvalPairList(p, keys, env, st).res.Ok? ==> NoneTwice(EvalPairList(p, keys, env, st).res.value)
    decreases p, 1, |keys|
  {
    hide CleanStore, Clean, UniqueValue, Eval;
    if keys != [] {
      EvalUnique(p, env, st, hot);
      EvalOnlyDraws(p, env, st);
      var params := Eval(p, env, st);
      DrawnStore(env, st, hot, params.st);
      if params.res.Ok? && Args(params.res.value, 2) {
        ArgumentsUnique(params.res.value);
        EvalPairListUnique(p, keys[1..], env, params.st, hot);
        EntryUnique(keys[0], params.res.value.items[1]);
      }
    }
  }

  predicate EntriesFor(keys: seq<Value>, vs: seq<Value>) {
    |vs| == |keys| && forall i | 0 <= i < |keys| :: vs[i].VEntry? && vs[i].key == keys[i]
  }

  lemma EntryUnique(k: Value, v: Value)
    requires UniqueValue(k) && UniqueValue(v)
    ensures UniqueValue(VEntry(k, v))
  {
  }

  lemma {:induction false} EvalLiteralUnique(id: nat, ty: Ty, lit: Literal, env: Env, st: Fuzz, hot: set<nat>)
    requires CleanStore(env, st, hot) && LiteralReady(ty, lit, env) && RepeatFreeLiteral(id, lit, env, hot)
    ensures UniqueResult(EvalLiteral(id, ty, lit, env, st).res)
    decreases lit, 1
  {
    hide CheckLiteral, WellFormed, TypeOf, GuardedLiteral, Check;
    match lit
    case LArray(_) => EvalArrayUnique(id, ty, lit, env, st, hot);
    case LStruct(items) =>
      EvalAllUnique(items, env, st, hot) by { ItemsReady(ty, items, env); }
    case LVariant(inner) =>
      EvalUnique(inner, env, st, hot) by { InnerReady(ty, inner, env); }
      var out := Eval(inner, env, st);
      if out.res.Ok? { VariantUnique(out.res.value, out.st); }
    case LDict(_) => EvalDictUnique(id, ty, lit, env, st, hot);
    case _ => EvalAtomUnique(id, ty, lit, env, st);
  }

  lemma EvalAtomUnique(id: nat, ty: Ty, lit: Literal, env: Env, st: Fuzz)
    requires UniqueEnv(env) && !lit.LArray? && !lit.LStruct? && !lit.LVariant? && !lit.LDict?
    ensures UniqueResult(EvalLiteral(id, ty, lit, env, st).res)
  {
  }

  lemma ItemsReady(ty: Ty, items: seq<Expr>, env: Env)
    requires LiteralReady(ty, LStruct(items), env)
    ensures forall i | 0 <= i < |items| :: Ready(items[i], env)
  {
    var ts := CheckAll(items, env).value;
  }

  lemma InnerReady(ty: Ty, inner: Expr, env: Env)
    requires LiteralReady(ty, LVariant(inner), env)
    ensures Ready(inner, env)
  {
  }

  lemma VariantUnique(v: Value, st: Fuzz)
    requires UniqueValue(v)
    ensures UniqueValue(VVariant(v)) && UniqueResult(FuzzVariant(v, st).res)
  {
  }

  lemma {:induction false} EvalArrayUnique(id: nat, ty: Ty, lit: Literal, env: Env, st: Fuzz, hot: set<nat>)
    requires lit.LArray? && CleanStore(env, st, hot)
    requires LiteralReady(ty, lit, env) && RepeatFreeLiteral(id, lit, env, hot)
    ensures UniqueResult(EvalLiteral(id, ty, lit, env, st).res)
    decreases lit, 0
  {
    hide Check, Guarded, WellFormed, TypeOf, CheckLiteral, GuardedLiteral, Parsed, UniqueValue, Conforms;
    StoreTypes(env, st, hot);
    ElementsReady(lit.items, ty, env);
    EmptyUnique(ty.elem);
    var st0 := if st.Fuzzes(id) then st.Advance() else st;
    EvalElementsUnique(id, ty.elem, lit.items, env, st0, hot);
    var out := EvalElements(id, ty.elem, lit.items, env, st0);
    if out.res.Ok? {
      if lit.items != [] {
        forall i | 0 <= i < |lit.items| ensures Tame(lit.items[i], env, UNTYPABLE) { AlwaysTame(lit.items[i], env); }
        EvalElementsSound(id, ty.elem, lit.items, env, st0, UNTYPABLE);
        NotEntriesNoneTwice(out.res.value, ty.elem);
      }
      ArrayUnique(ty.elem, out.res.value);
    }
  }

  lemma EmptyUnique(elem: Ty)
    ensures UniqueValue(VArray(elem, []))
  {
  }

  lemma ArrayUnique(elem: Ty, vs: seq<Value>)
    requires UniqueItems(vs) && NoneTwice(vs)
    ensures UniqueValue(VArray(elem, vs))
  {
  }

  lemma {:induction false} EvalDictUnique(id: nat, ty: Ty, lit: Literal, env: Env, st: Fuzz, hot: set<nat>)
    requires lit.LDict? && CleanStore(env, st, hot)
    requires LiteralReady(ty, lit, env) && RepeatFreeLiteral(id, lit, env, hot)
    ensures UniqueResult(EvalLiteral(id, ty, lit, env, st).res)
    decreases lit, 0
  {
    hide Check, Guarded, WellFormed, TypeOf, CheckLiteral, GuardedLiteral, Parsed, UniqueValue, Conforms;
    StoreTypes(env, st, hot);
    EntriesReady(lit.entries, ty, env);
    EmptyUnique(ty.elem);
    if lit.entries == [] {
      var st0 := if st.Fuzzes(id) then st.Advance() else st;
      assert EvalEntries(id, ty.elem, [], env, st0).res == Ok([]);
    } else {
      EvalEntriesUnique(id, ty.elem, lit.entries, env, st, hot);
      var out := EvalEntries(id, ty.elem, lit.entries, env, st);
      if out.res.Ok? {
        DistinctNoneTwice(lit.entries, out.res.value, hot);
        ArrayUnique(ty.elem, out.res.value);
      }
    }
  }

  lemma {:induction false} EvalAllUnique(es: seq<Expr>, env: Env, st: Fuzz, hot: set<nat>)
    requires CleanStore(env, st, hot) && forall i | 0 <= i < |es| :: Clean(es[i], env, hot)
    ensures UniqueResults(EvalAll(es, env, st).res)
    decreases es, 0
  {
    hide CleanStore, Clean, UniqueValue;
    if es != [] {
      EvalUnique(es[0], env, st, hot);
      EvalOnlyDraws(es[0], env, st);
      var first := Eval(es[0], env, st);
      DrawnStore(env, st, hot, first.st);
      if first.res.Ok? { EvalAllUnique(es[1..], env, first.st, hot); }
    }
  }

  lemma {:induction false} EvalElementUnique(id: nat, e: Expr, env: Env, st: Fuzz, hot: set<nat>)
    requires CleanStore(env, st, hot) && Clean(e, env, hot) && ClonesHot(id, e, hot)
    ensures UniqueResults(EvalElement(id, e, env, st).res)
    decreases e, 2
  {
    hide Clean, UniqueValue, Conforms, UniqueEnv, Eval;
    var st0 := if st.Fuzzes(id) then st.Advance() else st;
    EvalUnique(e, env, st0, hot);
    EvalOnlyDraws(e, env, st0);
    var out := Eval(e, env, st0);
    var st2 := if out.st.Fuzzes(id) then out.st.Advance() else out.st;
    if out.res.Ok? && e.Data? && st2.Fuzzes(id) {
      DrawnStore(env, st0, hot, out.st);
      CloneStore(env, st2.Advance(), e.id, hot);
      var before := st2.Advance().Weight(e.id);
      EvalUnique(e, env, st2.Advance().SetWeight(e.id, if before > 1.0 then before else 1.0), hot);
    }
  }

  /** Raising the weight of a node that may be fuzzed changes nothing about which may be. */
  lemma CloneStore(env: Env, st: Fuzz, id: nat, hot: set<nat>)
    requires CleanStore(env, st, hot) && id in hot
    ensures forall w :: CleanStore(env, st.SetWeight(id, w), hot)
  {
    forall w, id': nat ensures st.SetWeight(id, w).Fuzzes(id') ==> id' in hot {
      if id' != id { assert st.SetWeight(id, w).Fuzzes(id') <==> st.Fuzzes(id'); }
    }
  }

  lemma {:induction false} EvalElementsUnique(id: nat, elem: Ty, es: seq<Expr>, env: Env, st: Fuzz, hot: set<nat>)
    requires CleanStore(env, st, hot)
    requires forall i | 0 <= i < |es| :: Clean(es[i], env, hot) && ClonesHot(id, es[i], hot)
    ensures UniqueResults(EvalElements(id, elem, es, env, st).res)
    decreases es, 0
  {
    hide CleanStore, Clean, UniqueValue, EvalElement, ClonesHot;
    if es != [] {
      EvalElementUnique(id, es[0], env, st, hot);
      ElementOnlyDraws(id, es[0], env, st);
      var first := EvalElement(id, es[0], env, st);
      DrawnStore(env, st, hot, first.st);
      if first.res.Ok? { EvalElementsUnique(id, elem, es[1..], env, first.st, hot); }
    }
  }

  predicate CleanEntry(entry: Entry, env: Env, hot: set<nat>) {
    Clean(entry.key, env, hot) && Clean(entry.val, env, hot)
  }

  predicate EntryOf(entry: Entry, v: Value, hot: set<nat>) {
    v.VEntry? && UniqueValue(v) && (Steady(entry.key, hot) ==> Constant(entry.key) == Some(v.key))
  }

  predicate EntriesOf(es: seq<Entry>, vs: seq<Value>, hot: set<nat>) {
    |vs| == |es| && forall i | 0 <= i < |es| :: EntryOf(es[i], vs[i], hot)
  }

  predicate UniqueEntries(es: seq<Entry>, r: Result<seq<Value>>, hot: set<nat>) {
    match r
    case Ok(vs) => EntriesOf(es, vs, hot)
    case Fail(f) => !f.DuplicateKey?
  }

  /** An entry of a literal that is not fuzzed contributes itself, and a constant key that is not stays what it is. */
  lemma {:induction false} EvalEntryUnique(id: nat, entry: Entry, env: Env, st: Fuzz, hot: set<nat>)
    requires CleanStore(env, st, hot) && id !in hot && CleanEntry(entry, env, hot)
    ensures UniqueEntries([entry], EvalEntry(id, entry, env, st).res, hot)
    decreases entry
  {
    hide UniqueValue, Conforms, UniqueEnv;
    EvalUnique(entry.key, env, st, hot);
    EvalOnlyDraws(entry.key, env, st);
    var key := Eval(entry.key, env, st);
    EvalUnique(entry.val, env, key.st, hot);
    EvalOnlyDraws(entry.val, env, key.st);
    var val := Eval(entry.val, env, key.st);
    DrawnStore(env, st, hot, key.st);
    DrawnStore(env, key.st, hot, val.st);
    if Steady(entry.key, hot) { ConstantIsRead(entry.key, env, st); }
    if key.res.Ok? && val.res.Ok? { EntryUnique(key.res.value, val.res.value); }
  }

  lemma ConstantIsRead(e: Expr, env: Env, st: Fuzz)
    requires Ready(e, env) && Constant(e).Some? && !st.Fuzzes(e.id)
    ensures Eval(e, env, st) == Out(Ok(Constant(e).value), st)
  {
    hide Check;
    assert GuardedLiteral(e.lit, env);
    assert Eval(e, env, st) == EvalLiteral(e.id, Check(e, env).value, e.lit, env, st);
  }

  lemma {:induction false} EvalEntriesUnique(id: nat, elem: Ty, es: seq<Entry>, env: Env, st: Fuzz, hot: set<nat>)
    requires CleanStore(env, st, hot) && id !in hot && forall i | 0 <= i < |es| :: CleanEntry(es[i], env, hot)
    ensures UniqueEntries(es, EvalEntries(id, elem, es, env, st).res, hot)
    decreases es
  {
    hide CleanStore, CleanEntry, EntryOf, EvalEntry, IsEntryOf, EntriesOf;
    if es == [] {
      NoEntries(hot);
    } else {
      EvalEntryUnique(id, es[0], env, st, hot);
      EntryOnlyDraws(id, es[0], env, st);
      var first := EvalEntry(id, es[0], env, st);
      DrawnStore(env, st, hot, first.st);
      if first.res.Ok? {
        EvalEntriesUnique(id, elem, es[1..], env, first.st, hot);
        var rest := EvalEntries(id, elem, es[1..], env, first.st);
        if rest.res.Ok? { ConsEntries(es, first.res.value, rest.res.value, hot); }
      }
    }
  }

  lemma NoEntries(hot: set<nat>)
    ensures EntriesOf([], [], hot)
  {
  }

  lemma ConsEntries(es: seq<Entry>, own: seq<Value>, vs: seq<Value>, hot: set<nat>)
    requires es != [] && EntriesOf([es[0]], own, hot) && EntriesOf(es[1..], vs, hot)
    ensures EntriesOf(es, own + vs, hot)
  {
    hide EntryOf;
    assert EntryOf([es[0]][0], own[0], hot);
    forall i | 0 < i < |es| ensures EntryOf(es[i], (own + vs)[i], hot) { assert es[1..][i - 1] == es[i]; }
  }

  lemma DistinctNoneTwice(es: seq<Entry>, vs: seq<Value>, hot: set<nat>)
    requires SteadyKeys(es, hot) && EntriesOf(es, vs, hot)
    ensures UniqueItems(vs) && NoneTwice(vs)
  {
    hide Constant, UniqueValue;
    forall i, j | 0 <= i < j < |vs| ensures vs[i].key != vs[j].key {
      assert EntryOf(es[i], vs[i], hot) && EntryOf(es[j], vs[j], hot);
    }
  }
}
