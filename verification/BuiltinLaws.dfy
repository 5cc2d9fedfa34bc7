/**
 Laws of the builtin functions, said by expressions of the language: reading after writing, removing after
 inserting, and what each function gives of a literal. They hold of all operands that have values and pass the
 checks, without fuzzing.
 */
module BuiltinLaws {
  import opened Results
  import opened VariantTypes
  import opened Containers
  import opened Language
  import opened Evaluator
  import opened EffectFree
  import opened Statements
  import opened TypeSoundness
  import opened Builtins
  import opened Exactness
  import opened ExpressionLaws

  /** A call whose parameters pass the checks and fit the function passes them as well. */
  lemma ReadyCall(fn: Function, id: nat, es: seq<Expr>, ts: seq<Ty>, env: Env)
    requires |ts| == |es| && forall i | 0 <= i < |es| :: Ready(es[i], env) && Check(es[i], env) == Some(ts[i])
    requires Definite(TTuple(ts)) && FunctionType(fn, TTuple(ts)).Some?
    ensures Ready(Apply(fn, id, es), env) && Check(Apply(fn, id, es), env) == FunctionType(fn, TTuple(ts))
  {
    hide FunctionType;
    CheckAllIs(es, ts, env);
    assert CheckLiteral(LStruct(es), env) == Some(TTuple(ts));
    assert ParsedLiteral(LStruct(es)) && GuardedLiteral(LStruct(es), env);
    var p := Data(id, None, LStruct(es));
    assert Check(p, env) == Some(TTuple(ts)) && Parsed(p) && Guarded(p, env);
  }

  // ----- dictionaries -----------------------------------------------------------------------------

  /** What a dictionary expression is: its value's entries have the key and value types of its type. */
  lemma DictOf(v: Value, t: Ty)
    requires HasType(v, t) && IsDictType(t)
    ensures DictValue(v) && v.elem == t.elem && Usable(t)
    ensures forall i | 0 <= i < |v.items| :: HasType(v.items[i], t.elem)
  {
    DictEntries(v, t.elem.key, t.elem.val);
    WellFormedType(v);
  }

  lemma SetPlain(id: nat, d: Expr, k: Expr, v: Expr, env: Env) returns (t: Ty)
    requires Conforms(env) && Ready(Apply(FDictSet, id, [d, k, v]), env)
    requires Plain(d, env).Ok? && Plain(k, env).Ok? && Plain(v, env).Ok?
    ensures Ready(d, env) && Ready(k, env) && Ready(v, env)
    ensures IsDictType(t) && Usable(t) && Check(d, env) == Some(t) && HasType(Plain(d, env).value, t)
    ensures Check(Apply(FDictSet, id, [d, k, v]), env) == Some(t)
    ensures Check(k, env) == Some(t.elem.key) && Check(v, env) == Some(t.elem.val)
    ensures var r := DictSet(Plain(d, env).value.items, Plain(k, env).value, Plain(v, env).value);
      Plain(Apply(FDictSet, id, [d, k, v]), env) == if r.Ok? then Ok(VArray(t.elem, r.value)) else Fail(r.fault)
  {
    hide Check, Plain, DictSet, Conforms, WellFormed, TypeOf;
    var es := [d, k, v];
    var ts := Applied(FDictSet, id, es, env);
    var vs := Values(es, env);
    assert es[0] == d && es[1] == k && es[2] == v;
    t := ts[0];
    assert DictParameters(TTuple(ts)) && IsDictType(t);
    DictOf(vs[0], t);
    KeyAndValue(t, ts[1], ts[2]);
    DictSetOfType(vs[0].items, vs[1], vs[2], t.elem.key, t.elem.val);
    var r := DictSet(vs[0].items, vs[1], vs[2]);
    if r.Ok? { BuildSound(t.elem, r.value); }
  }

  lemma KeyAndValue(t: Ty, k: Ty, v: Ty)
    requires IsDictType(t) && Usable(t) && Subtype(k, t.elem.key) && Subtype(v, t.elem.val)
    ensures k == t.elem.key && v == t.elem.val
  {
    assert Definite(t.elem);
    SubtypeOfDefinite(k, t.elem.key);
    SubtypeOfDefinite(v, t.elem.val);
  }

  lemma GetPlain(id: nat, d: Expr, l: Expr, x: Expr, env: Env) returns (t: Ty)
    requires Conforms(env) && Ready(Apply(FDictGet, id, [d, l, x]), env)
    requires Plain(d, env).Ok? && Plain(l, env).Ok? && Plain(x, env).Ok?
    ensures IsDictType(t) && Usable(t) && Check(d, env) == Some(t) && HasType(Plain(d, env).value, t)
    ensures Ready(l, env) && Ready(x, env) && Check(l, env) == Some(t.elem.key) && Check(x, env) == Some(t.elem.val)
    ensures DictValue(Plain(d, env).value)
    ensures Plain(Apply(FDictGet, id, [d, l, x]), env) ==
      Ok(DictGet(Plain(d, env).value.items, Plain(l, env).value, Plain(x, env).value))
  {
    hide Check, Plain, DictGet, Conforms, WellFormed, TypeOf;
    var es := [d, l, x];
    var ts := Applied(FDictGet, id, es, env);
    var vs := Values(es, env);
    assert es[0] == d && es[1] == l && es[2] == x;
    t := ts[0];
    assert DictParameters(TTuple(ts)) && IsDictType(t);
    DictOf(vs[0], t);
    KeyAndValue(t, ts[1], ts[2]);
  }

  lemma ReadyGet(id: nat, d: Expr, l: Expr, x: Expr, t: Ty, env: Env)
    requires IsDictType(t) && Usable(t) && Ready(d, env) && Check(d, env) == Some(t)
    requires Ready(l, env) && Ready(x, env) && Check(l, env) == Some(t.elem.key) && Check(x, env) == Some(t.elem.val)
    ensures Ready(Apply(FDictGet, id, [d, l, x]), env)
  {
    hide Check, Guarded, Parsed;
    var ts := [t, t.elem.key, t.elem.val];
    SubtypeReflexive(t.elem.key);
    SubtypeReflexive(t.elem.val);
    assert Definite(t.elem);
    ReadyCall(FDictGet, id, [d, l, x], ts, env);
  }

  /** What dictSet() wrote is what dictGet() reads, and at other keys it reads what it did before. */
  lemma GetAfterSet(i: nat, j: nat, d: Expr, k: Expr, v: Expr, l: Expr, x: Expr, env: Env)
    requires Conforms(env)
    requires var set1 := Apply(FDictSet, j, [d, k, v]);
      Ready(Apply(FDictGet, i, [set1, l, x]), env) && Plain(set1, env).Ok?
    requires Plain(d, env).Ok? && Plain(k, env).Ok? && Plain(v, env).Ok? && Plain(l, env).Ok? && Plain(x, env).Ok?
    ensures Plain(Apply(FDictGet, i, [Apply(FDictSet, j, [d, k, v]), l, x]), env) ==
      if Plain(k, env) == Plain(l, env) then Plain(v, env) else Plain(Apply(FDictGet, i, [d, l, x]), env)
  {
    hide Check, Plain, DictGet, DictSet, Conforms, WellFormed, TypeOf, Guarded, Parsed;
    var set1 := Apply(FDictSet, j, [d, k, v]);
    var t := GetPlain(i, set1, l, x, env);
    ReadyParameters(FDictGet, i, [set1, l, x], env);
    assert [set1, l, x][0] == set1;
    var t' := SetPlain(j, d, k, v, env);
    DictOf(Plain(d, env).value, t);
    ReadyGet(i, d, l, x, t, env);
    var t'' := GetPlain(i, d, l, x, env);
    ReadOverWrite(Plain(d, env).value.items, Plain(k, env).value, Plain(v, env).value, Plain(l, env).value,
                  Plain(x, env).value);
  }

  lemma ReadyParameter(fn: Function, p: Expr, env: Env)
    requires Ready(Call(fn, p), env)
    ensures Ready(p, env)
  {
  }

  lemma ReadyParameters(fn: Function, id: nat, es: seq<Expr>, env: Env)
    requires Ready(Apply(fn, id, es), env)
    ensures forall i | 0 <= i < |es| :: Ready(es[i], env)
  {
    assert Ready(Data(id, None, LStruct(es)), env);
    var ts := StructReady(id, es, env);
  }

  lemma UnsetPlain(id: nat, d: Expr, k: Expr, env: Env) returns (t: Ty)
    requires Conforms(env) && Ready(Apply(FDictUnset, id, [d, k]), env) && Plain(d, env).Ok? && Plain(k, env).Ok?
    ensures Ready(d, env) && Ready(k, env) && Check(Apply(FDictUnset, id, [d, k]), env) == Some(t)
    ensures IsDictType(t) && Usable(t) && Check(d, env) == Some(t) && HasType(Plain(d, env).value, t)
    ensures DictValue(Plain(d, env).value)
    ensures Plain(Apply(FDictUnset, id, [d, k]), env) ==
      Ok(VArray(t.elem, DictUnset(Plain(d, env).value.items, Plain(k, env).value)))
  {
    hide Check, Plain, DictUnset, Conforms, WellFormed, TypeOf;
    var es := [d, k];
    var ts := Applied(FDictUnset, id, es, env);
    var vs := Values(es, env);
    assert es[0] == d && es[1] == k;
    t := ts[0];
    DictOf(vs[0], t);
    var r := DictUnset(vs[0].items, vs[1]);
    forall i | 0 <= i < |r| ensures HasType(r[i], t.elem) { assert r[i] in vs[0].items; }
    BuildSound(t.elem, r);
  }

  /** What dictUnset() removed dictGet() no longer finds, and at other keys it reads what it did before. */
  lemma GetAfterUnset(i: nat, j: nat, d: Expr, k: Expr, l: Expr, x: Expr, env: Env)
    requires Conforms(env) && Ready(Apply(FDictGet, i, [Apply(FDictUnset, j, [d, k]), l, x]), env)
    requires Plain(d, env).Ok? && Plain(k, env).Ok? && Plain(l, env).Ok? && Plain(x, env).Ok?
    ensures Plain(Apply(FDictGet, i, [Apply(FDictUnset, j, [d, k]), l, x]), env) ==
      if Plain(k, env) == Plain(l, env) then Plain(x, env) else Plain(Apply(FDictGet, i, [d, l, x]), env)
  {
    hide Check, Plain, DictGet, DictUnset, Conforms, WellFormed, TypeOf, Guarded, Parsed;
    var without := Apply(FDictUnset, j, [d, k]);
    ReadyParameters(FDictGet, i, [without, l, x], env);
    assert [without, l, x][0] == without;
    var t := UnsetPlain(j, d, k, env);
    var t' := GetPlain(i, without, l, x, env);
    ReadyGet(i, d, l, x, t, env);
    var t'' := GetPlain(i, d, l, x, env);
    var items, kv, lv, xv := Plain(d, env).value.items, Plain(k, env).value, Plain(l, env).value, Plain(x, env).value;
    DictUnsetIsRemoval(items, kv);
    DictGetIsLookup(DictUnset(items, kv), lv, xv);
    DictGetIsLookup(items, lv, xv);
  }

  /** dictUnset() undoes dictSet(), but for an entry with the key that was there before. */
  lemma UnsetAfterSet(i: nat, j: nat, d: Expr, k: Expr, v: Expr, env: Env)
    requires Conforms(env) && Ready(Apply(FDictUnset, i, [Apply(FDictSet, j, [d, k, v]), k]), env)
    requires Plain(d, env).Ok? && Plain(k, env).Ok? && Plain(v, env).Ok?
    requires Plain(Apply(FDictSet, j, [d, k, v]), env).Ok?
    ensures Plain(Apply(FDictUnset, i, [Apply(FDictSet, j, [d, k, v]), k]), env) ==
      Plain(Apply(FDictUnset, i, [d, k]), env)
  {
    hide Check, Plain, DictSet, DictUnset, Conforms, WellFormed, TypeOf, Guarded, Parsed;
    var set1 := Apply(FDictSet, j, [d, k, v]);
    ReadyParameters(FDictUnset, i, [set1, k], env);
    assert [set1, k][0] == set1;
    var t := SetPlain(j, d, k, v, env);
    DictOf(Plain(d, env).value, t);
    var t' := UnsetPlain(i, set1, k, env);
    ReadyUnset(i, d, k, t, env);
    var t'' := UnsetPlain(i, d, k, env);
    UnsetForgetsSet(Plain(d, env).value.items, Plain(k, env).value, Plain(v, env).value);
  }

  lemma ReadyUnset(id: nat, d: Expr, k: Expr, t: Ty, env: Env)
    requires IsDictType(t) && Usable(t) && Ready(d, env) && Check(d, env) == Some(t)
    requires Ready(k, env) && Check(k, env) == Some(t.elem.key)
    ensures Ready(Apply(FDictUnset, id, [d, k]), env)
  {
    hide Check, Guarded, Parsed;
    SubtypeReflexive(t.elem.key);
    assert Definite(t.elem);
    ReadyCall(FDictUnset, id, [d, k], [t, t.elem.key], env);
  }

  // ----- keys -------------------------------------------------------------------------------------

  lemma KeysPlain(d: Expr, env: Env) returns (t: Ty)
    requires Conforms(env) && Ready(Call(FKeys, d), env) && Plain(d, env).Ok?
    ensures Ready(d, env) && IsDictType(t) && Usable(t) && Check(d, env) == Some(t) && HasType(Plain(d, env).value, t)
    ensures DictValue(Plain(d, env).value) && Check(Call(FKeys, d), env) == Some(TArray(t.elem.key))
    ensures Plain(Call(FKeys, d), env) == Ok(VArray(t.elem.key, Keys(Plain(d, env).value.items)))
  {
    hide Conforms, WellFormed, TypeOf;
    t := Check(d, env).value;
    QuietSound(d, env);
    DictOf(Plain(d, env).value, t);
    PlainIsOff(d, env);
    var ks := Keys(Plain(d, env).value.items);
    DictEntries(Plain(d, env).value, t.elem.key, t.elem.val);
    assert Definite(t.elem);
    BuildSound(t.elem.key, ks);
  }

  lemma InArrayPlain(id: nat, x: Expr, a: Expr, env: Env) returns (t: Ty)
    requires Conforms(env) && Ready(Apply(FInArray, id, [x, a]), env) && Plain(x, env).Ok? && Plain(a, env).Ok?
    ensures Ready(x, env) && Ready(a, env) && Check(x, env) == Some(t) && Check(a, env) == Some(TArray(t)) && Usable(t)
    ensures HasType(Plain(a, env).value, TArray(t)) && Plain(a, env).value.VArray?
    ensures Plain(Apply(FInArray, id, [x, a]), env) == Ok(VBool(Plain(x, env).value in Plain(a, env).value.items))
  {
    hide Check, Plain, Conforms, WellFormed, TypeOf;
    var es := [x, a];
    var ts := Applied(FInArray, id, es, env);
    assert es[0] == x && es[1] == a;
    t := ts[0];
    assert Definite(ts[1]) && ts[1].TArray? && Definite(ts[1].elem);
    SubtypeOfDefinite(t, ts[1].elem);
    ArrayItems(Values(es, env)[1], t);
  }

  lemma BelowAny(t: Ty)
    ensures Subtype(t, TAny) && Subtype(TArray(t), TArray(TAny)) && Subtype(TInt(UInt32), TInt(UInt32))
  {
  }

  lemma ReadyInArray(id: nat, x: Expr, a: Expr, t: Ty, env: Env)
    requires Usable(t) && Ready(x, env) && Check(x, env) == Some(t) && Ready(a, env) && Check(a, env) == Some(TArray(t))
    ensures Ready(Apply(FInArray, id, [x, a]), env)
  {
    hide Check, Guarded, Parsed;
    SubtypeReflexive(t);
    BelowAny(t);
    var ts, patterns := [t, TArray(t)], [TAny, TArray(TAny)];
    assert Takes(TTuple(ts), patterns);
    ReadyCall(FInArray, id, [x, a], ts, env);
  }

  /** A key is among the keys after it is set, and others are if they were. */
  lemma KeysAfterSet(i: nat, j: nat, d: Expr, k: Expr, v: Expr, l: Expr, env: Env)
    requires Conforms(env) && Plain(Apply(FDictSet, j, [d, k, v]), env).Ok?
    requires Ready(Apply(FInArray, i, [l, Call(FKeys, Apply(FDictSet, j, [d, k, v]))]), env)
    requires Plain(d, env).Ok? && Plain(k, env).Ok? && Plain(v, env).Ok? && Plain(l, env).Ok?
    ensures Plain(Apply(FInArray, i, [l, Call(FKeys, Apply(FDictSet, j, [d, k, v]))]), env) ==
      Plain(Binary(Or, Binary(Eq, l, k), Apply(FInArray, i, [l, Call(FKeys, d)])), env)
  {
    hide Check, Plain, DictSet, Conforms, WellFormed, TypeOf, Guarded, Parsed, Keys;
    var set1 := Apply(FDictSet, j, [d, k, v]);
    var found, was := Apply(FInArray, i, [l, Call(FKeys, set1)]), Apply(FInArray, i, [l, Call(FKeys, d)]);
    ReadyParameters(FInArray, i, [l, Call(FKeys, set1)], env);
    assert [l, Call(FKeys, set1)][0] == l && [l, Call(FKeys, set1)][1] == Call(FKeys, set1);
    var t := KeysPlain(set1, env);
    var t' := SetPlain(j, d, k, v, env);
    ReadyKeys(d, t, env);
    var t0 := KeysPlain(d, env);
    var u := InArrayPlain(i, l, Call(FKeys, set1), env);
    ReadyInArray(i, l, Call(FKeys, d), u, env);
    var u0 := InArrayPlain(i, l, Call(FKeys, d), env);
    KeysFollowUpdates(Plain(d, env).value.items, Plain(k, env).value, Plain(v, env).value, Plain(l, env).value);
    Equality(l, k, env);
    OrPlain(Binary(Eq, l, k), was, env);
  }

  lemma ReadyKeys(d: Expr, t: Ty, env: Env)
    requires IsDictType(t) && Ready(d, env) && Check(d, env) == Some(t)
    ensures Ready(Call(FKeys, d), env)
  {
  }

  lemma OrPlain(a: Expr, b: Expr, env: Env)
    requires Truthful(a, env) && Truthful(b, env)
    ensures Plain(Binary(Or, a, b), env) == Ok(VBool(Plain(a, env).value.b || Plain(b, env).value.b))
    ensures Plain(Binary(And, a, b), env) == Ok(VBool(Plain(a, env).value.b && Plain(b, env).value.b))
  {
    hide Eval;
    PlainBinary(Or, a, b, env);
    PlainBinary(And, a, b, env);
  }

  /** A key is not among the keys after it is unset, and others are if they were. */
  lemma KeysAfterUnset(i: nat, j: nat, d: Expr, k: Expr, l: Expr, env: Env)
    requires Conforms(env) && Plain(d, env).Ok? && Plain(k, env).Ok? && Plain(l, env).Ok?
    requires Ready(Apply(FInArray, i, [l, Call(FKeys, Apply(FDictUnset, j, [d, k]))]), env)
    ensures Plain(Apply(FInArray, i, [l, Call(FKeys, Apply(FDictUnset, j, [d, k]))]), env) ==
      Plain(Binary(And, Binary(Neq, l, k), Apply(FInArray, i, [l, Call(FKeys, d)])), env)
  {
    hide Check, Plain, DictUnset, Conforms, WellFormed, TypeOf, Guarded, Parsed, Keys;
    var without := Apply(FDictUnset, j, [d, k]);
    var found, was := Apply(FInArray, i, [l, Call(FKeys, without)]), Apply(FInArray, i, [l, Call(FKeys, d)]);
    ReadyParameters(FInArray, i, [l, Call(FKeys, without)], env);
    assert [l, Call(FKeys, without)][0] == l && [l, Call(FKeys, without)][1] == Call(FKeys, without);
    ReadyParameter(FKeys, without, env);
    var t := UnsetPlain(j, d, k, env);
    var t' := KeysPlain(without, env);
    ReadyKeys(d, t, env);
    var t0 := KeysPlain(d, env);
    var u := InArrayPlain(i, l, Call(FKeys, without), env);
    ReadyInArray(i, l, Call(FKeys, d), u, env);
    var u0 := InArrayPlain(i, l, Call(FKeys, d), env);
    KeysAfterRemoval(Plain(d, env).value.items, Plain(k, env).value, Plain(l, env).value);
    Difference(l, k, env);
    OrPlain(Binary(Neq, l, k), was, env);
  }

  lemma Difference(l: Expr, k: Expr, env: Env)
    requires Plain(l, env).Ok? && Plain(k, env).Ok?
    ensures Plain(Binary(Neq, l, k), env) == Ok(VBool(Plain(l, env) != Plain(k, env)))
  {
    PlainBinary(Neq, l, k, env);
  }

  /** Of a key that is not among the keys, dictGet() gives the default. */
  lemma GetAbsent(i: nat, j: nat, d: Expr, l: Expr, x: Expr, env: Env)
    requires Conforms(env) && Ready(Apply(FDictGet, i, [d, l, x]), env)
    requires Plain(d, env).Ok? && Plain(l, env).Ok? && Plain(x, env).Ok?
    requires Plain(Apply(FInArray, j, [l, Call(FKeys, d)]), env) == Ok(VBool(false))
    ensures Plain(Apply(FDictGet, i, [d, l, x]), env) == Plain(x, env)
  {
    hide Check, Plain, DictGet, Conforms, WellFormed, TypeOf, Guarded, Parsed, Keys;
    var t := GetPlain(i, d, l, x, env);
    ReadyParameters(FDictGet, i, [d, l, x], env);
    assert [d, l, x][0] == d;
    ReadyKeys(d, t, env);
    var t' := KeysPlain(d, env);
    ReadyInArray(j, l, Call(FKeys, d), t.elem.key, env) by { assert Definite(t.elem); BasicHasBasicKeys(t.elem.key); }
    var u := InArrayPlain(j, l, Call(FKeys, d), env);
    AbsentIsDefault(Plain(d, env).value.items, Plain(l, env).value, Plain(x, env).value);
  }

  lemma {:induction false} AbsentIsDefault(d: seq<Value>, l: Value, x: Value)
    requires IsDict(d) && l !in Keys(d)
    ensures DictGet(d, l, x) == x
    decreases |d|
  {
    if d != [] {
      assert Keys(d)[0] == d[0].key;
      forall i | 0 <= i < |d[1..]| ensures Keys(d[1..])[i] != l { assert Keys(d)[i + 1] == Keys(d[1..])[i]; }
      AbsentIsDefault(d[1..], l, x);
    }
  }

  // ----- arrays -----------------------------------------------------------------------------------

  lemma ArrayOf(id: nat, fn: Function, a: Expr, i: Expr, v: Expr, env: Env) returns (t: Ty, n: nat)
    requires Conforms(env) && (fn.FArrayGet? || fn.FArrayInsert?) && Ready(Apply(fn, id, [a, i, v]), env)
    requires Plain(a, env).Ok? && Plain(i, env).Ok? && Plain(v, env).Ok?
    ensures Ready(a, env) && Ready(i, env) && Ready(v, env) && Usable(t)
    ensures Check(a, env) == Some(TArray(t)) && Check(i, env) == Some(TInt(UInt32)) && Check(v, env) == Some(t)
    ensures Plain(a, env).value.VArray? && AllOfType(Plain(a, env).value.items, t) && Plain(a, env).value.elem == t
    ensures HasType(Plain(v, env).value, t) && Plain(i, env) == Ok(VInt(UInt32, n)) && InRange(UInt32, n)
    ensures Check(Apply(fn, id, [a, i, v]), env) == Some(if fn.FArrayGet? then t else TArray(t))
    ensures Plain(Apply(fn, id, [a, i, v]), env) == Ok(
      var items := Plain(a, env).value.items;
      if fn.FArrayInsert? then VArray(t, InsertAt(items, n, Plain(v, env).value))
      else if n < |items| then items[n] else Plain(v, env).value)
  {
    hide Check, Plain, Conforms, TypeOf, WellFormed, ApplyFunction;
    var es := [a, i, v];
    var ts := Applied(fn, id, es, env);
    var vs := Values(es, env);
    assert es[0] == a && es[1] == i && es[2] == v;
    assert ArrayParameters(TTuple(ts)) && Definite(ts[0]) && Usable(ts[0]);
    t := ts[0].elem;
    SubtypeOfDefinite(ts[2], t);
    ArrayItems(vs[0], t);
    IsUInt32(vs[1]);
    n := vs[1].n;
    ArrayApplied(fn, t, vs[0].items, n, vs[2]);
    assert vs == [VArray(t, vs[0].items), VInt(UInt32, n), vs[2]];
  }

  lemma ArrayApplied(fn: Function, t: Ty, a: seq<Value>, n: nat, v: Value)
    requires (fn.FArrayGet? || fn.FArrayInsert?) && Usable(t) && AllOfType(a, t) && HasType(v, t)
    ensures var vs := [VArray(t, a), VInt(UInt32, n), v];
      ApplyFunction(fn, if fn.FArrayGet? then t else TArray(t), VTuple(vs)) ==
        Ok(if fn.FArrayInsert? then VArray(t, InsertAt(a, n, v)) else if n < |a| then a[n] else v)
  {
    if fn.FArrayInsert? { BuildSound(t, InsertAt(a, n, v)); }
  }

  lemma IsUInt32(v: Value)
    requires HasType(v, TInt(UInt32))
    ensures v.VInt? && v.kind.UInt32? && InRange(UInt32, v.n)
  {
  }

  lemma RemovePlain(id: nat, a: Expr, i: Expr, env: Env) returns (t: Ty, n: nat)
    requires Conforms(env) && Ready(Apply(FArrayRemove, id, [a, i]), env) && Plain(a, env).Ok? && Plain(i, env).Ok?
    ensures Ready(a, env) && Plain(i, env) == Ok(VInt(UInt32, n)) && Plain(a, env).value.VArray?
    ensures Plain(a, env).value.elem == t
    ensures Plain(Apply(FArrayRemove, id, [a, i]), env) == Ok(VArray(t, RemoveAt(Plain(a, env).value.items, n)))
  {
    hide Check, Plain, Conforms, TypeOf;
    var es := [a, i];
    var ts := Applied(FArrayRemove, id, es, env);
    var vs := Values(es, env);
    assert es[0] == a && es[1] == i && Definite(ts[0]) && Usable(ts[0]) && ts[0].TArray?;
    t := ts[0].elem;
    ArrayItems(vs[0], t);
    IsUInt32(vs[1]);
    n := vs[1].n;
    BuildSound(t, RemoveAt(vs[0].items, n));
  }

  /** arrayRemove() undoes arrayInsert() at the same index, whatever the index. */
  lemma RemoveAfterInsert(i: nat, j: nat, a: Expr, n: Expr, v: Expr, env: Env)
    requires Conforms(env) && Ready(Apply(FArrayRemove, i, [Apply(FArrayInsert, j, [a, n, v]), n]), env)
    requires Plain(a, env).Ok? && Plain(n, env).Ok? && Plain(v, env).Ok?
    ensures Plain(Apply(FArrayRemove, i, [Apply(FArrayInsert, j, [a, n, v]), n]), env) == Plain(a, env)
  {
    hide Check, Plain, Conforms, TypeOf, Guarded, Parsed, InsertAt, RemoveAt;
    var longer := Apply(FArrayInsert, j, [a, n, v]);
    ReadyParameters(FArrayRemove, i, [longer, n], env);
    assert [longer, n][0] == longer;
    var t, at := ArrayOf(j, FArrayInsert, a, n, v, env);
    var t', at' := RemovePlain(i, longer, n, env);
    RemoveUndoesInsert(Plain(a, env).value.items, at, Plain(v, env).value);
  }

  /** What arrayInsert() inserted is in the array, and everything that was. */
  lemma InArrayAfterInsert(i: nat, j: nat, x: Expr, a: Expr, n: Expr, v: Expr, env: Env)
    requires Conforms(env) && Ready(Apply(FInArray, i, [x, Apply(FArrayInsert, j, [a, n, v])]), env)
    requires Plain(x, env).Ok? && Plain(a, env).Ok? && Plain(n, env).Ok? && Plain(v, env).Ok?
    ensures Plain(Apply(FInArray, i, [x, Apply(FArrayInsert, j, [a, n, v])]), env) ==
      Plain(Binary(Or, Binary(Eq, x, v), Apply(FInArray, i, [x, a])), env)
  {
    hide Check, Plain, Conforms, TypeOf, Guarded, Parsed;
    var longer := Apply(FArrayInsert, j, [a, n, v]);
    ReadyParameters(FInArray, i, [x, longer], env);
    assert [x, longer][1] == longer;
    var t, at := ArrayOf(j, FArrayInsert, a, n, v, env);
    var u := InArrayPlain(i, x, longer, env);
    ReadyInArray(i, x, a, u, env);
    var u' := InArrayPlain(i, x, a, env);
    Inserted(Plain(a, env).value.items, at, Plain(v, env).value, Plain(x, env).value);
    Equality(x, v, env);
    OrPlain(Binary(Eq, x, v), Apply(FInArray, i, [x, a]), env);
  }

  lemma Inserted(a: seq<Value>, n: nat, v: Value, x: Value)
    ensures x in InsertAt(a, n, v) <==> x == v || x in a
  {
    var k := if n < |a| then n else |a|;
    assert a == a[..k] + a[k..];
  }

  /**
   What arrayGet() reads after arrayInsert(): the new item, an old one where it was or one further on, or the
   default.
   */
  lemma GetAfterInsert(i: nat, j: nat, a: Expr, n: Expr, v: Expr, m: Expr, x: Expr, env: Env)
    requires Conforms(env) && Ready(Apply(FArrayGet, i, [Apply(FArrayInsert, j, [a, n, v]), m, x]), env)
    requires Plain(a, env).Ok? && Plain(n, env).Ok? && Plain(v, env).Ok? && Plain(m, env).Ok? && Plain(x, env).Ok?
    ensures Plain(n, env).value.VInt? && Plain(m, env).value.VInt? && Plain(a, env).value.VArray?
    ensures var size := |Plain(a, env).value.items|;
      var at := if Plain(n, env).value.n < size then Plain(n, env).value.n else size;
      var k := Plain(m, env).value.n;
      var back := Numeral(0, UInt32, if k < at then k else k - 1);
      Plain(Apply(FArrayGet, i, [Apply(FArrayInsert, j, [a, n, v]), m, x]), env) ==
        if k == at then Plain(v, env) else Plain(Apply(FArrayGet, i, [a, back, x]), env)
  {
    hide Check, Plain, Conforms, TypeOf, Guarded, Parsed;
    var longer := Apply(FArrayInsert, j, [a, n, v]);
    ReadyParameters(FArrayGet, i, [longer, m, x], env);
    assert [longer, m, x][0] == longer;
    var t, at := ArrayOf(j, FArrayInsert, a, n, v, env);
    var t', k := ArrayOf(i, FArrayGet, longer, m, x, env);
    var size := |Plain(a, env).value.items|;
    var p := if at < size then at else size;
    if k != p {
      var index := if k < p then k else k - 1;
      var back := Numeral(0, UInt32, index);
      IndexReady(index, env);
      ReadyArrayGet(i, a, back, x, t, env);
      var t'', k' := ArrayOf(i, FArrayGet, a, back, x, env);
    }
  }

  lemma IndexReady(n: nat, env: Env)
    requires InRange(UInt32, n)
    ensures var e := Numeral(0, UInt32, n);
      Ready(e, env) && Check(e, env) == Some(TInt(UInt32)) && Plain(e, env) == Ok(VInt(UInt32, n))
  {
    NumeralPlain(0, UInt32, n, env);
    assert CheckLiteral(LInt(UInt32, n), env) == Some(TInt(UInt32));
  }

  lemma ReadyArrayGet(id: nat, a: Expr, i: Expr, x: Expr, t: Ty, env: Env)
    requires Usable(t) && Ready(a, env) && Ready(i, env) && Ready(x, env)
    requires Check(a, env) == Some(TArray(t)) && Check(i, env) == Some(TInt(UInt32)) && Check(x, env) == Some(t)
    ensures Ready(Apply(FArrayGet, id, [a, i, x]), env)
  {
    hide Check, Guarded, Parsed;
    SubtypeReflexive(t);
    BelowAny(t);
    var ts, patterns := [TArray(t), TInt(UInt32), t], [TArray(TAny), TInt(UInt32), TAny];
    assert Takes(TTuple(ts), patterns);
    ReadyCall(FArrayGet, id, [a, i, x], ts, env);
  }

  // ----- structs, strings and pairs ---------------------------------------------------------------

  /** structHead() of a struct is its first item. */
  lemma HeadOfStruct(i: nat, j: nat, es: seq<Expr>, env: Env)
    requires Conforms(env) && es != [] && AllPlain(es, env)
    requires Ready(Apply(FStructHead, i, [Data(j, None, LStruct(es))]), env)
    ensures Plain(Apply(FStructHead, i, [Data(j, None, LStruct(es))]), env) == Plain(es[0], env)
  {
    hide Check, Plain, Conforms, WellFormed, TypeOf, Guarded, Parsed;
    var s := Data(j, None, LStruct(es));
    ReadyParameters(FStructHead, i, [s], env);
    assert [s][0] == s;
    StructPlain(j, es, env);
    var ts := Applied(FStructHead, i, [s], env);
    assert Values([s], env) == [VTuple(Values(es, env))];
  }

  lemma JoinPlain(id: nat, sep: Expr, a: Expr, env: Env)
    requires Conforms(env) && Ready(Apply(FStringJoin, id, [sep, a]), env) && Plain(sep, env).Ok? && Plain(a, env).Ok?
    ensures Ready(sep, env) && Ready(a, env)
    ensures Check(sep, env) == Some(TString) && Check(a, env) == Some(TArray(TString))
    ensures Plain(sep, env).value.VString? && Plain(a, env).value.VArray? && AllStrings(Plain(a, env).value.items)
    ensures Plain(Apply(FStringJoin, id, [sep, a]), env) ==
      Ok(VString(Join(Plain(sep, env).value.s, Plain(a, env).value.items)))
  {
    hide Check, Plain, Conforms, Join;
    var es := [sep, a];
    var ts := Applied(FStringJoin, id, es, env);
    assert es[0] == sep && es[1] == a && Definite(ts[0]) && Definite(ts[1]);
    SubtypeOfDefinite(ts[0], TString);
    SubtypeOfDefinite(ts[1], TArray(TString));
    ArrayItems(Values(es, env)[1], TString);
  }

  /** Joining no strings gives the empty string. */
  lemma JoinOfNone(i: nat, sep: Expr, a: Expr, env: Env)
    requires Conforms(env) && Ready(Apply(FStringJoin, i, [sep, a]), env)
    requires Plain(sep, env).Ok? && Plain(a, env).Ok? && Children(Plain(a, env).value) == []
    ensures Plain(Apply(FStringJoin, i, [sep, a]), env) == Ok(VString(""))
  {
    hide Check, Plain, Conforms, Guarded, Parsed;
    JoinPlain(i, sep, a, env);
  }

  /** Joining with one more string in front puts the separator after it, unless it is the only one. */
  lemma JoinAfterInsert(i: nat, j: nat, sep: Expr, a: Expr, v: Expr, env: Env)
    requires Conforms(env) && Plain(sep, env).Ok? && Plain(a, env).Ok? && Plain(v, env).Ok?
    requires Ready(Apply(FStringJoin, i, [sep, Apply(FArrayInsert, j, [a, Numeral(0, UInt32, 0), v])]), env)
    ensures Plain(sep, env).value.VString? && Plain(a, env).value.VArray? && Plain(v, env).value.VString?
    ensures var rest := Plain(Apply(FStringJoin, i, [sep, a]), env);
      rest.Ok? && rest.value.VString? &&
      Plain(Apply(FStringJoin, i, [sep, Apply(FArrayInsert, j, [a, Numeral(0, UInt32, 0), v])]), env) ==
        Ok(VString(if Plain(a, env).value.items == [] then Plain(v, env).value.s
                   else Plain(v, env).value.s + Plain(sep, env).value.s + rest.value.s))
  {
    hide Check, Plain, Conforms, Guarded, Parsed, Join, TypeOf;
    var zero := Numeral(0, UInt32, 0);
    var longer := Apply(FArrayInsert, j, [a, zero, v]);
    IndexReady(0, env);
    ReadyParameters(FStringJoin, i, [sep, longer], env);
    assert [sep, longer][1] == longer;
    var t, n := ArrayOf(j, FArrayInsert, a, zero, v, env);
    JoinPlain(i, sep, longer, env);
    assert t == TString;
    ReadyJoin(i, sep, a, env);
    JoinPlain(i, sep, a, env);
    IsString(Plain(v, env).value);
    var items, w := Plain(a, env).value.items, Plain(v, env).value;
    assert InsertAt(items, 0, w) == [w] + items;
    JoinCons(Plain(sep, env).value.s, w, items);
  }

  lemma IsString(v: Value)
    requires HasType(v, TString)
    ensures v.VString?
  {
  }

  lemma JoinCons(sep: string, v: Value, items: seq<Value>)
    requires v.VString? && AllStrings(items)
    ensures Join(sep, [v] + items) == if items == [] then v.s else v.s + sep + Join(sep, items)
  {
    assert ([v] + items)[1..] == items;
  }

  lemma ReadyJoin(id: nat, sep: Expr, a: Expr, env: Env)
    requires Ready(sep, env) && Ready(a, env)
    requires Check(sep, env) == Some(TString) && Check(a, env) == Some(TArray(TString))
    ensures Ready(Apply(FStringJoin, id, [sep, a]), env)
  {
    hide Check, Guarded, Parsed;
    SubtypeReflexive(TArray(TString));
    SubtypeReflexive(TString);
    var ts, patterns := [TString, TArray(TString)], [TString, TArray(TString)];
    assert Takes(TTuple(ts), patterns);
    ReadyCall(FStringJoin, id, [sep, a], ts, env);
  }

  lemma PairPlain(id: nat, ks: Expr, v: Expr, env: Env) returns (t: Ty)
    requires Conforms(env) && Ready(Apply(FPairKeys, id, [ks, v]), env) && Plain(ks, env).Ok? && Plain(v, env).Ok?
    ensures Ready(ks, env) && Ready(v, env) && IsDictType(t) && Usable(t)
    ensures Check(ks, env) == Some(TArray(t.elem.key)) && Check(v, env) == Some(t.elem.val)
    ensures Plain(ks, env).value.VArray? && Check(Apply(FPairKeys, id, [ks, v]), env) == Some(t)
    ensures Plain(Apply(FPairKeys, id, [ks, v]), env) ==
      Ok(VArray(t.elem, Paired(Plain(ks, env).value.items, Plain(v, env).value)))
  {
    hide WellFormed, TypeOf, Conforms, Guarded;
    var es := [ks, v];
    var p := Data(id, None, LStruct(es));
    ReadyParameter(FPairKeys, p, env);
    assert es[0] == ks && es[1] == v;
    var ts := StructReady(id, es, env);
    t := PairTypes(ts);
    ConformingTypes(env);
    CheckUsable(p, env);
    FunctionTypeUsable(FPairKeys, TTuple(ts));
    QuietSound(ks, env);
    QuietSound(v, env);
    ArrayItems(Plain(ks, env).value, t.elem.key);
    StructPlain(id, es, env);
    var vs := Values(es, env);
    PairedPlain(p, t, vs, env);
  }

  lemma PairTypes(ts: seq<Ty>) returns (t: Ty)
    requires FunctionType(FPairKeys, TTuple(ts)).Some?
    ensures |ts| == 2 && ts[0].TArray? && FunctionType(FPairKeys, TTuple(ts)) == Some(t)
    ensures t == TArray(TEntry(ts[0].elem, ts[1])) && IsDictType(t)
  {
    t := TArray(TEntry(ts[0].elem, ts[1]));
    assert Subtype(ts[0], TArray(TBasic));
  }

  lemma PairedPlain(p: Expr, t: Ty, vs: seq<Value>, env: Env)
    requires Check(Call(FPairKeys, p), env) == Some(t) && IsDictType(t) && Usable(t)
    requires |vs| == 2 && Plain(p, env) == Ok(VTuple(vs))
    requires HasType(vs[0], TArray(t.elem.key)) && HasType(vs[1], t.elem.val)
    ensures vs[0].VArray? && Plain(Call(FPairKeys, p), env) == Ok(VArray(t.elem, Paired(vs[0].items, vs[1])))
  {
    hide Check, EvalPairList, WellFormed, TypeOf;
    ArrayItems(vs[0], t.elem.key);
    PlainIsOff(p, env);
    PairedValues(p, vs[0].items, env, vs[1]);
    var d := Paired(vs[0].items, vs[1]);
    forall i | 0 <= i < |d| ensures HasType(d[i], t.elem) { EntryOf(vs[0].items[i], vs[1], t.elem); }
    BuildSound(t.elem, d);
    assert EvalPairs(p, t, vs[0].items, env, QUIET).res == Ok(VArray(t.elem, d));
    assert Eval(p, env, QUIET) == Out(Ok(VTuple(vs)), QUIET);
  }

  lemma EntryOf(k: Value, v: Value, t: Ty)
    requires t.TEntry? && HasType(k, t.key) && HasType(v, t.val) && Basic(t.key)
    ensures HasType(VEntry(k, v), t)
  {
  }

  /** The keys of what pairKeys() gives are those it was given, in order. */
  lemma KeysOfPairs(id: nat, ks: Expr, v: Expr, env: Env)
    requires Conforms(env) && Ready(Apply(FPairKeys, id, [ks, v]), env) && Plain(ks, env).Ok? && Plain(v, env).Ok?
    ensures Plain(Call(FKeys, Apply(FPairKeys, id, [ks, v])), env) == Plain(ks, env)
  {
    hide Check, Plain, Conforms, WellFormed, TypeOf, Guarded, Parsed, Keys;
    var d := Apply(FPairKeys, id, [ks, v]);
    var t := PairPlain(id, ks, v, env);
    ReadyKeys(d, t, env);
    var t' := KeysPlain(d, env);
    QuietSound(ks, env);
    ArrayItems(Plain(ks, env).value, t.elem.key);
    var items := Plain(ks, env).value.items;
    assert Keys(Paired(items, Plain(v, env).value)) == items;
  }

  /** And each is paired with the value. */
  lemma GetOfPairs(i: nat, j: nat, ks: Expr, v: Expr, l: Expr, x: Expr, env: Env)
    requires Conforms(env) && Ready(Apply(FDictGet, i, [Apply(FPairKeys, j, [ks, v]), l, x]), env)
    requires Plain(ks, env).Ok? && Plain(v, env).Ok? && Plain(l, env).Ok? && Plain(x, env).Ok?
    ensures var known := Plain(Apply(FInArray, i, [l, ks]), env);
      && (known == Ok(VBool(true)) || known == Ok(VBool(false)))
      && Plain(Apply(FDictGet, i, [Apply(FPairKeys, j, [ks, v]), l, x]), env) ==
           if known == Ok(VBool(true)) then Plain(v, env) else Plain(x, env)
  {
    hide Check, Plain, Conforms, WellFormed, TypeOf, Guarded, Parsed, DictGet;
    var d := Apply(FPairKeys, j, [ks, v]);
    ReadyParameters(FDictGet, i, [d, l, x], env);
    assert [d, l, x][0] == d;
    var t := PairPlain(j, ks, v, env);
    var t' := GetPlain(i, d, l, x, env);
    ReadyInArray(i, l, ks, t.elem.key, env) by { assert Definite(t.elem); BasicHasBasicKeys(t.elem.key); }
    var u := InArrayPlain(i, l, ks, env);
    GetPaired(Plain(ks, env).value.items, Plain(v, env).value, Plain(l, env).value, Plain(x, env).value);
  }

  lemma {:induction false} GetPaired(ks: seq<Value>, v: Value, l: Value, x: Value)
    ensures DictGet(Paired(ks, v), l, x) == if l in ks then v else x
    decreases |ks|
  {
    if ks != [] {
      GetPaired(ks[1..], v, l, x);
      assert Paired(ks, v)[1..] == Paired(ks[1..], v) && Paired(ks, v)[0] == VEntry(ks[0], v);
      assert ks == [ks[0]] + ks[1..];
    }
  }

  /** Among the tuples of a dictionary are exactly its keys, each with what dictGet() reads at it. */
  lemma TuplesOfDict(i: nat, j: nat, d: Expr, k: Expr, x: Expr, env: Env)
    requires Conforms(env) && Ready(Apply(FDictGet, i, [d, k, x]), env)
    requires Plain(d, env).Ok? && Plain(k, env).Ok? && Plain(x, env).Ok?
    ensures var pair := Data(j, None, LStruct([k, Apply(FDictGet, i, [d, k, x])]));
      Plain(Apply(FInArray, i, [pair, Apply(FDictToTupleArray, j, [d])]), env) ==
        Plain(Apply(FInArray, i, [k, Call(FKeys, d)]), env)
  {
    hide Check, Plain, Conforms, WellFormed, TypeOf, Guarded, Parsed, DictGet, Keys, EntriesToTuples;
    var read, tuples := Apply(FDictGet, i, [d, k, x]), Apply(FDictToTupleArray, j, [d]);
    var pair := Data(j, None, LStruct([k, read]));
    var t := GetPlain(i, d, k, x, env);
    ReadyParameters(FDictGet, i, [d, k, x], env);
    assert [d, k, x][0] == d;
    PairIsReady(i, j, d, k, x, t, env);
    TuplesPlain(j, d, t, env);
    var u := InArrayPlain(i, pair, tuples, env);
    ReadyKeys(d, t, env);
    var t' := KeysPlain(d, env);
    ReadyInArray(i, k, Call(FKeys, d), t.elem.key, env) by { assert Definite(t.elem); BasicHasBasicKeys(t.elem.key); }
    var u' := InArrayPlain(i, k, Call(FKeys, d), env);
    FoundPair(Plain(d, env).value.items, Plain(k, env).value, Plain(x, env).value);
  }

  lemma {:induction false} PairIsReady(i: nat, j: nat, d: Expr, k: Expr, x: Expr, t: Ty, env: Env)
    requires Conforms(env) && Ready(Apply(FDictGet, i, [d, k, x]), env) && Ready(d, env)
    requires Plain(d, env).Ok? && Plain(k, env).Ok? && Plain(x, env).Ok?
    requires IsDictType(t) && Usable(t) && Check(d, env) == Some(t)
    requires Ready(k, env) && Check(k, env) == Some(t.elem.key) && Check(x, env) == Some(t.elem.val)
    requires Plain(Apply(FDictGet, i, [d, k, x]), env).Ok?
    ensures var read := Apply(FDictGet, i, [d, k, x]);
      var pair := Data(j, None, LStruct([k, read]));
      && Ready(Apply(FInArray, i, [pair, Apply(FDictToTupleArray, j, [d])]), env)
      && Plain(pair, env) == Ok(VTuple([Plain(k, env).value, Plain(read, env).value]))
  {
    hide Conforms, WellFormed, TypeOf, Check, Guarded, Parsed, Plain, FunctionType, ApplyFunction, Values;
    var read := Apply(FDictGet, i, [d, k, x]);
    var es := [k, read];
    var pair := Data(j, None, LStruct(es));
    var ts := [t.elem.key, t.elem.val];
    GetChecks(i, d, k, x, t, env);
    assert Definite(t.elem) && BasicKeys(t.elem);
    BasicHasBasicKeys(t.elem.key);
    StructIsReady(j, es, ts, env);
    StructPlain(j, es, env);
    assert Values(es, env) == [Plain(k, env).value, Plain(read, env).value];
    TuplesReady(j, d, t, env);
    ReadyInArray(i, pair, Apply(FDictToTupleArray, j, [d]), TTuple(ts), env);
  }

  lemma GetChecks(id: nat, d: Expr, l: Expr, x: Expr, t: Ty, env: Env)
    requires IsDictType(t) && Ready(Apply(FDictGet, id, [d, l, x]), env) && Check(x, env) == Some(t.elem.val)
    ensures Check(Apply(FDictGet, id, [d, l, x]), env) == Some(t.elem.val)
  {
    var es := [d, l, x];
    assert Ready(Data(id, None, LStruct(es)), env);
    var ts := StructReady(id, es, env);
    assert es[2] == x;
  }

  lemma StructIsReady(id: nat, es: seq<Expr>, ts: seq<Ty>, env: Env)
    requires |ts| == |es| && forall i | 0 <= i < |es| :: Ready(es[i], env) && Check(es[i], env) == Some(ts[i])
    requires Definite(TTuple(ts))
    ensures Ready(Data(id, None, LStruct(es)), env) && Check(Data(id, None, LStruct(es)), env) == Some(TTuple(ts))
  {
    CheckAllIs(es, ts, env);
    assert CheckLiteral(LStruct(es), env) == Some(TTuple(ts));
    assert ParsedLiteral(LStruct(es)) && GuardedLiteral(LStruct(es), env);
  }

  lemma TuplesReady(id: nat, d: Expr, t: Ty, env: Env)
    requires IsDictType(t) && Usable(t) && Ready(d, env) && Check(d, env) == Some(t)
    ensures var e := Apply(FDictToTupleArray, id, [d]);
      Ready(e, env) && Check(e, env) == Some(TArray(TTuple([t.elem.key, t.elem.val])))
  {
    hide Check, Guarded, Parsed;
    BelowAny(t);
    var ts, patterns := [t], [TAny];
    assert Takes(TTuple(ts), patterns);
    ReadyCall(FDictToTupleArray, id, [d], ts, env);
  }

  lemma TuplesPlain(id: nat, d: Expr, t: Ty, env: Env)
    requires Conforms(env) && IsDictType(t) && Usable(t)
    requires Ready(d, env) && Check(d, env) == Some(t) && Plain(d, env).Ok?
    ensures DictValue(Plain(d, env).value)
    ensures Plain(Apply(FDictToTupleArray, id, [d]), env) ==
      Ok(VArray(TTuple([t.elem.key, t.elem.val]), EntriesToTuples(Plain(d, env).value.items)))
  {
    hide Check, Plain, Conforms, WellFormed, TypeOf, Guarded, Parsed, EntriesToTuples;
    TuplesReady(id, d, t, env);
    var es := [d];
    var ts := Applied(FDictToTupleArray, id, es, env);
    var vs := Values(es, env);
    assert es[0] == d;
    DictEntries(vs[0], t.elem.key, t.elem.val);
    DictToTupleArraySound(VTuple(vs), TTuple(ts)) by { TupleOf(vs, ts); }
  }

  lemma {:induction false} FoundPair(d: seq<Value>, k: Value, x: Value)
    requires IsDict(d)
    ensures VTuple([k, DictGet(d, k, x)]) in EntriesToTuples(d) <==> k in Keys(d)
    decreases |d|
  {
    if d != [] {
      FoundPair(d[1..], k, x);
      var first := VTuple([d[0].key, d[0].val]);
      assert EntriesToTuples(d) == [first] + EntriesToTuples(d[1..]) && Keys(d) == [d[0].key] + Keys(d[1..]);
      if d[0].key != k {
        assert [d[0].key, d[0].val][0] != [k, DictGet(d, k, x)][0];
      }
    }
  }
}
