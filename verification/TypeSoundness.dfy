/**
 Type soundness of the expression language.

 The checker as written lets some expressions through that go wrong when they are evaluated. The main
 results say exactly which: an accepted expression is safe, under every outcome of fuzzing, just when it
 passes the guard that the checker lacks.
 */
module TypeSoundness {
  import opened Results
  import opened VariantTypes
  import opened SaturatingArithmetic
  import opened Containers
  import opened Language
  import opened Evaluator

  /** A result of the right type, or one of the given faults, which types cannot rule out. */
  predicate Sound(r: Result<Value>, t: Ty, fs: set<Fault>) {
    match r
    case Ok(v) => HasType(v, t)
    case Fail(f) => Untypable(f) && f in fs
  }

  predicate AllOfType(vs: seq<Value>, t: Ty) {
    forall i | 0 <= i < |vs| :: HasType(vs[i], t)
  }

  predicate SoundAll(r: Result<seq<Value>>, t: Ty, fs: set<Fault>) {
    match r
    case Ok(vs) => AllOfType(vs, t)
    case Fail(f) => Untypable(f) && f in fs
  }

  predicate SoundTuple(r: Result<seq<Value>>, ts: seq<Ty>, fs: set<Fault>) {
    match r
    case Ok(vs) => |vs| == |ts| && forall i | 0 <= i < |ts| :: HasType(vs[i], ts[i])
    case Fail(f) => Untypable(f) && f in fs
  }

  // ----- values and their types -------------------------------------------------------------------

  lemma TupleItems(v: Value, ts: seq<Ty>)
    requires HasType(v, TTuple(ts))
    ensures v.VTuple? && |v.items| == |ts| && forall i | 0 <= i < |ts| :: HasType(v.items[i], ts[i])
  {
    assert TypeOf(v).items == ts;
  }

  lemma TupleOf(vs: seq<Value>, ts: seq<Ty>)
    requires |vs| == |ts| && forall i | 0 <= i < |ts| :: HasType(vs[i], ts[i])
    ensures HasType(VTuple(vs), TTuple(ts))
  {
    assert TypeOf(VTuple(vs)).items == ts;
  }

  lemma ArrayItems(v: Value, elem: Ty)
    requires HasType(v, TArray(elem))
    ensures v.VArray? && v.elem == elem && AllOfType(v.items, elem) && Usable(elem)
  {
  }

  lemma DictEntries(v: Value, k: Ty, w: Ty)
    requires HasType(v, TArray(TEntry(k, w)))
    ensures DictValue(v) && AllOfType(v.items, TEntry(k, w)) && Usable(TEntry(k, w)) && Basic(k)
    ensures forall i | 0 <= i < |v.items| :: HasType(v.items[i].key, k) && HasType(v.items[i].val, w)
  {
    forall i | 0 <= i < |v.items|
      ensures v.items[i].VEntry? && HasType(v.items[i].key, k) && HasType(v.items[i].val, w)
    {
      var entry := v.items[i];
      assert WellFormed(entry) && TypeOf(entry) == TEntry(k, w);
    }
  }

  // ----- random choices ---------------------------------------------------------------------------

  /** Whatever is drawn, a fuzzed integer is in its type's range. */
  lemma FuzzIntInRange(k: IntKind, default: int, st: Fuzz)
    requires InRange(k, default)
    ensures InRange(k, FuzzInt(k, default, st).0)
  {
  }

  /** The slip in the 64-bit draw: apart from the default, no negative number below -5 but MIN is ever drawn. */
  lemma FuzzInt64RarelyNegative(default: int, st: Fuzz)
    ensures var n := FuzzInt(Int64, default, st).0; n == default || n == MinOf(Int64) || n >= -5
  {
  }

  /** Appending a decimal number to an object path gives an object path, even to the root path. */
  lemma FuzzPathValid(default: string, st: Fuzz)
    requires IsObjectPath(default)
    ensures IsObjectPath(FuzzPath(default, st).0)
  {
    var suffix := Decimal(st.Advance().Range(0, 100));
    assert forall i | 0 <= i < |suffix| :: '0' <= suffix[i] <= '9';
  }

  // ----- operators and builtin functions ----------------------------------------------------------

  lemma ApplyBinarySound(op: BinOp, l: Value, r: Value, lt: Ty, rt: Ty)
    requires HasType(l, lt) && HasType(r, rt)
    requires OperandsAccepted(op, lt, rt) && GuardedOperands(op, Some(lt))
    ensures Sound(ApplyBinary(op, l, r), if op.Arith? then lt else TBool,
                  if MayOverflow(op, Some(lt)) then {SignedOverflow} else {})
  {
    if op.Arith? && l.VInt? {
      CalcInRange(op.op, l.kind, l.n, r.n);
    }
  }

  /** Without the guard an accepted operator always goes wrong, whatever its operands' values. */
  lemma ApplyBinaryUnguarded(op: BinOp, l: Value, r: Value, lt: Ty)
    requires TypeOf(l) == lt && !GuardedOperands(op, Some(lt))
    ensures ApplyBinary(op, l, r) == Fail(TypeFault)
  {
  }

  lemma FunctionTypeUsable(fn: Function, p: Ty)
    requires Usable(p) && FunctionType(fn, p).Some?
    ensures Usable(FunctionType(fn, p).value)
  {
    match fn
    case FKeys => DictTypeUsable(p);
    case FPairKeys =>
      assert Usable(p.items[0]) && Usable(p.items[1]);
      assert Usable(p.items[0].elem);
      assert Subtype(p.items[0], TArray(TBasic));
      assert Usable(TEntry(p.items[0].elem, p.items[1]));
    case FDictToTupleArray =>
      assert Usable(p.items[0]);
      DictTypeUsable(p.items[0]);
    case FStructHead => assert Usable(p.items[0]);
    case _ =>
  }

  lemma DictTypeUsable(t: Ty)
    requires Usable(t) && IsDictType(t)
    ensures Usable(t.elem.key) && Usable(t.elem.val)
    ensures Usable(TArray(TTuple([t.elem.key, t.elem.val])))
  {
    BasicHasBasicKeys(t.elem.key);
    assert Definite(t.elem) && BasicKeys(t.elem);
    assert Usable(TTuple([t.elem.key, t.elem.val]));
  }

  lemma BasicHasBasicKeys(t: Ty)
    requires Basic(t)
    ensures BasicKeys(t)
  {
  }

  lemma BuildSound(elem: Ty, items: seq<Value>)
    requires Usable(elem) && AllOfType(items, elem)
    ensures Build(TArray(elem), items).Ok? && HasType(Build(TArray(elem), items).value, TArray(elem))
  {
  }

  lemma ApplyFunctionSound(fn: Function, p: Value, pt: Ty)
    requires HasType(p, pt) && FunctionType(fn, pt).Some? && !fn.FPairKeys?
    ensures Sound(ApplyFunction(fn, FunctionType(fn, pt).value, p), FunctionType(fn, pt).value,
                  if fn.FDictSet? then {DuplicateKey} else {})
  {
    WellFormedType(p);
    FunctionTypeUsable(fn, pt);
    hide WellFormed, TypeOf;
    match fn
    case FKeys =>
      DictEntries(p, pt.elem.key, pt.elem.val);
      BuildSound(pt.elem.key, Keys(p.items));
    case FInArray => InArraySound(p, pt);
    case FArrayGet => ArrayGetSound(p, pt);
    case FArrayInsert => ArrayInsertSound(p, pt);
    case FArrayRemove => ArrayRemoveSound(p, pt);
    case FDictSet => DictSetSound(p, pt);
    case FDictUnset => DictUnsetSound(p, pt);
    case FDictGet => DictGetSound(p, pt);
    case FDictToTupleArray => DictToTupleArraySound(p, pt);
    case FStructHead =>
      TupleItems(p, pt.items);
      TupleItems(p.items[0], pt.items[0].items);
    case FStringJoin => StringJoinSound(p, pt);
  }

  lemma InArraySound(p: Value, pt: Ty)
    requires HasType(p, pt) && FunctionType(FInArray, pt).Some?
    ensures Sound(ApplyFunction(FInArray, TBool, p), TBool, {})
  {
    TupleItems(p, pt.items);
    assert Subtype(pt.items[1], TArray(TAny));
  }

  lemma StringJoinSound(p: Value, pt: Ty)
    requires HasType(p, pt) && FunctionType(FStringJoin, pt).Some?
    ensures Sound(ApplyFunction(FStringJoin, TString, p), TString, {})
  {
    TupleItems(p, pt.items);
    SubtypeOfDefinite(pt.items[1], TArray(TString));
    ArrayItems(p.items[1], TString);
    assert forall i | 0 <= i < |p.items[1].items| :: p.items[1].items[i].VString?;
  }

  lemma ArrayGetSound(p: Value, pt: Ty)
    requires HasType(p, pt) && Usable(pt) && ArrayParameters(pt)
    ensures Sound(ApplyFunction(FArrayGet, pt.items[2], p), pt.items[2], {})
  {
    TupleItems(p, pt.items);
    ArrayItems(p.items[0], pt.items[0].elem);
    SubtypeOfDefinite(pt.items[2], pt.items[0].elem);
  }

  lemma ArrayInsertSound(p: Value, pt: Ty)
    requires HasType(p, pt) && Usable(pt) && ArrayParameters(pt)
    ensures Sound(ApplyFunction(FArrayInsert, pt.items[0], p), pt.items[0], {})
  {
    TupleItems(p, pt.items);
    ArrayItems(p.items[0], pt.items[0].elem);
    SubtypeOfDefinite(pt.items[2], pt.items[0].elem);
    BuildSound(pt.items[0].elem, InsertAt(p.items[0].items, p.items[1].n, p.items[2]));
  }

  lemma ArrayRemoveSound(p: Value, pt: Ty)
    requires HasType(p, pt) && Usable(pt) && FunctionType(FArrayRemove, pt).Some?
    ensures Sound(ApplyFunction(FArrayRemove, pt.items[0], p), pt.items[0], {})
  {
    TupleItems(p, pt.items);
    ArrayItems(p.items[0], pt.items[0].elem);
    BuildSound(pt.items[0].elem, RemoveAt(p.items[0].items, p.items[1].n));
  }

  lemma DictSetSound(p: Value, pt: Ty)
    requires HasType(p, pt) && Usable(pt) && DictParameters(pt)
    ensures Sound(ApplyFunction(FDictSet, pt.items[0], p), pt.items[0], {DuplicateKey})
  {
    hide WellFormed, TypeOf;
    TupleItems(p, pt.items);
    var k, w := pt.items[0].elem.key, pt.items[0].elem.val;
    assert pt.items[0] == TArray(TEntry(k, w)) && Definite(pt.items[0]);
    DictEntries(p.items[0], k, w);
    SubtypeOfDefinite(pt.items[1], k);
    SubtypeOfDefinite(pt.items[2], w);
    DictSetOfType(p.items[0].items, p.items[1], p.items[2], k, w);
    var r := DictSet(p.items[0].items, p.items[1], p.items[2]);
    if r.Ok? {
      BuildSound(TEntry(k, w), r.value);
    }
  }

  lemma DictSetOfType(d: seq<Value>, key: Value, val: Value, k: Ty, w: Ty)
    requires IsDict(d) && AllOfType(d, TEntry(k, w)) && HasType(key, k) && HasType(val, w) && Basic(k)
    ensures DictSet(d, key, val).Ok? ==> AllOfType(DictSet(d, key, val).value, TEntry(k, w))
  {
    assert HasType(VEntry(key, val), TEntry(k, w));
    assert AllOfType(Replace(d, key, val), TEntry(k, w));
  }

  lemma DictUnsetSound(p: Value, pt: Ty)
    requires HasType(p, pt) && Usable(pt) && FunctionType(FDictUnset, pt).Some?
    ensures Sound(ApplyFunction(FDictUnset, pt.items[0], p), pt.items[0], {})
  {
    TupleItems(p, pt.items);
    var elem := pt.items[0].elem;
    DictEntries(p.items[0], elem.key, elem.val);
    var d := DictUnset(p.items[0].items, p.items[1]);
    forall i | 0 <= i < |d| ensures HasType(d[i], elem) {
      assert d[i] in p.items[0].items;
    }
    BuildSound(elem, d);
  }

  lemma DictGetSound(p: Value, pt: Ty)
    requires HasType(p, pt) && Usable(pt) && DictParameters(pt)
    ensures Sound(ApplyFunction(FDictGet, pt.items[2], p), pt.items[2], {})
  {
    hide WellFormed, TypeOf;
    TupleItems(p, pt.items);
    var k, w := pt.items[0].elem.key, pt.items[0].elem.val;
    assert pt.items[0] == TArray(TEntry(k, w)) && Definite(pt.items[0]);
    DictEntries(p.items[0], k, w);
    SubtypeOfDefinite(pt.items[2], w);
    DictGetType(p.items[0].items, p.items[1], p.items[2], w);
  }

  lemma {:induction false} DictGetType(d: seq<Value>, k: Value, default: Value, w: Ty)
    requires IsDict(d) && HasType(default, w)
    requires forall i | 0 <= i < |d| :: HasType(d[i].val, w)
    ensures HasType(DictGet(d, k, default), w)
  {
    if d != [] { DictGetType(d[1..], k, default, w); }
  }

  lemma DictToTupleArraySound(p: Value, pt: Ty)
    requires HasType(p, pt) && Usable(pt) && FunctionType(FDictToTupleArray, pt).Some?
    ensures var ret := FunctionType(FDictToTupleArray, pt).value;
      Sound(ApplyFunction(FDictToTupleArray, ret, p), ret, {})
  {
    TupleItems(p, pt.items);
    var k, w := pt.items[0].elem.key, pt.items[0].elem.val;
    DictEntries(p.items[0], k, w);
    var d := p.items[0].items;
    var ts := EntriesToTuples(d);
    forall i | 0 <= i < |ts| ensures HasType(ts[i], TTuple([k, w])) {
      TupleOf([d[i].key, d[i].val], [k, w]);
    }
    FunctionTypeUsable(FDictToTupleArray, pt);
    BuildSound(TTuple([k, w]), ts);
  }

  // ----- types of accepted expressions ------------------------------------------------------------

  predicate UsableTypes(env: Env) {
    && (forall x :: x in env.locals ==> Usable(env.locals[x].ty))
    && (forall x :: x in env.objects ==> Usable(env.objects[x].ty))
  }

  /** An accepted and guarded expression has a definite type with basic dictionary keys. */
  lemma {:induction false} CheckUsable(e: Expr, env: Env)
    requires UsableTypes(env) && Parsed(e) && Guarded(e, env) && Check(e, env).Some?
    ensures Usable(Check(e, env).value)
    decreases e
  {
    match e
    case Data(_, annotation, lit) =>
      if annotation.None? { CheckLiteralUsable(lit, env); }
    case Not(_) =>
    case Binary(op, l, r) => CheckUsable(l, env);
    case Call(fn, p) =>
      CheckUsable(p, env);
      FunctionTypeUsable(fn, Check(p, env).value);
  }

  lemma {:induction false} CheckLiteralUsable(lit: Literal, env: Env)
    requires UsableTypes(env) && ParsedLiteral(lit) && GuardedLiteral(lit, env)
    requires CheckLiteral(lit, env).Some? && Definite(CheckLiteral(lit, env).value)
    ensures BasicKeys(CheckLiteral(lit, env).value)
    decreases lit
  {
    match lit
    case LArray(items) =>
      var ts := CheckAll(items, env).value;
      forall i | 0 <= i < |items| ensures Usable(ts[i]) { CheckUsable(items[i], env); }
      if items != [] { LeastGeneralDefinite(None, ts, TAny); }
    case LStruct(items) =>
      var ts := CheckAll(items, env).value;
      forall i | 0 <= i < |items| ensures Usable(ts[i]) { CheckUsable(items[i], env); }
    case _ =>
  }

  /** Apart from empty containers, a guarded literal's type is definite before any annotation is looked at. */
  lemma GuardedLiteralDefinite(lit: Literal, env: Env)
    requires UsableTypes(env) && ParsedLiteral(lit) && GuardedLiteral(lit, env) && CheckLiteral(lit, env).Some?
    requires lit != LArray([]) && lit != LDict([])
    ensures Definite(CheckLiteral(lit, env).value)
  {
    if lit.LStruct? {
      var ts := CheckAll(lit.items, env).value;
      forall i | 0 <= i < |ts| ensures Definite(ts[i]) { CheckUsable(lit.items[i], env); }
    }
  }

  /** How the type an accepted data structure is evaluated at relates to its literal. */
  predicate LiteralReady(ty: Ty, lit: Literal, env: Env) {
    && ParsedLiteral(lit) && GuardedLiteral(lit, env) && CheckLiteral(lit, env).Some?
    && Usable(ty)
    && (if lit == LArray([]) then ty.TArray?
        else if lit == LDict([]) then IsDictType(ty)
        else ty == CheckLiteral(lit, env).value)
  }

  lemma AcceptedLiteralReady(e: Expr, env: Env)
    requires e.Data? && UsableTypes(env) && Parsed(e) && Guarded(e, env) && Check(e, env).Some?
    ensures LiteralReady(Check(e, env).value, e.lit, env)
  {
    CheckUsable(e, env);
    var ty, calculated := Check(e, env).value, CheckLiteral(e.lit, env).value;
    if e.lit == LArray([]) {
      assert calculated == TArray(TAny);
    } else if e.lit == LDict([]) {
      assert calculated == TArray(TEntry(TBasic, TAny));
      SubtypeReflexive(calculated);
      DictTypesAreSubtypes(ty);
    } else {
      GuardedLiteralDefinite(e.lit, env);
      SubtypeOfDefinite(ty, calculated);
    }
  }

  /** In a guarded array literal every element has the element type. */
  lemma ElementsHaveType(items: seq<Expr>, ty: Ty, env: Env)
    requires UsableTypes(env) && LiteralReady(ty, LArray(items), env)
    ensures forall i | 0 <= i < |items| :: Check(items[i], env) == Some(ty.elem)
  {
    if items != [] {
      var ts := CheckAll(items, env).value;
      forall i | 0 <= i < |items| ensures Definite(ts[i]) { CheckUsable(items[i], env); }
      LeastGeneralDefinite(None, ts, TAny);
    }
  }

  lemma EntriesHaveType(entries: seq<Entry>, ty: Ty, env: Env)
    requires UsableTypes(env) && LiteralReady(ty, LDict(entries), env)
    ensures IsDictType(ty)
    ensures forall i | 0 <= i < |entries| :: CheckEntry(entries[i], env) == Some(ty.elem)
  {
    if entries != [] {
      var ts := CheckEntries(entries, env).value;
      forall i | 0 <= i < |entries| ensures Definite(ts[i].key) && Definite(ts[i].val) {
        assert CheckEntry(entries[i], env) == Some(ts[i]);
        CheckUsable(entries[i].key, env);
        CheckUsable(entries[i].val, env);
      }
      EntryTypesAgree(ts);
      assert ty == TArray(EntryType(ts));
      assert BasicKeys(ty.elem);
    }
  }

  /** The entry type inferred for a dictionary literal from the types of its entries. */
  function EntryType(ts: seq<Ty>): Ty
    requires forall i | 0 <= i < |ts| :: ts[i].TEntry?
  {
    TEntry(LeastGeneral(None, KeyTypes(ts), TBasic).GetOr(TBasic), LeastGeneral(None, ValTypes(ts), TAny).GetOr(TAny))
  }

  lemma EntryTypesAgree(ts: seq<Ty>)
    requires ts != [] && forall i | 0 <= i < |ts| :: ts[i].TEntry? && Definite(ts[i].key) && Definite(ts[i].val)
    ensures Definite(EntryType(ts)) <==> forall i | 0 <= i < |ts| :: ts[i] == ts[0]
    ensures Definite(EntryType(ts)) ==> EntryType(ts) == ts[0]
  {
    var ks, vs := KeyTypes(ts), ValTypes(ts);
    LeastGeneralDefinite(None, ks, TBasic);
    LeastGeneralDefinite(None, vs, TAny);
    if Definite(EntryType(ts)) {
      forall i | 0 <= i < |ts| ensures ts[i] == ts[0] {
        assert ks[i] == ks[0] && vs[i] == vs[0];
      }
    }
    if forall i | 0 <= i < |ts| :: ts[i] == ts[0] {
      assert forall i | 0 <= i < |ts| :: ks[i] == ks[0] && vs[i] == vs[0];
    }
  }

  // ----- soundness --------------------------------------------------------------------------------

  predicate Ready(e: Expr, env: Env) {
    Parsed(e) && Guarded(e, env) && Check(e, env).Some?
  }

  lemma ConformingTypes(env: Env)
    requires Conforms(env)
    ensures UsableTypes(env)
  {
  }

  /** Type soundness: whatever is drawn, a guarded expression evaluates to a value of its checked type. */
  lemma {:induction false} EvalSound(e: Expr, env: Env, st: Fuzz, fs: set<Fault>)
    requires Conforms(env) && Ready(e, env)
    requires Tame(e, env, fs)
    ensures Sound(Eval(e, env, st).res, Check(e, env).value, fs)
    decreases e, 0
  {
    match e
    case Data(id, _, lit) =>
      AcceptedLiteralReady(e, env);
      EvalLiteralSound(id, Check(e, env).value, lit, env, st, fs);
    case Not(c) =>
      EvalSound(c, env, st, fs);
    case Binary(op, l, r) =>
      EvalSound(l, env, st, fs);
      var left := Eval(l, env, st);
      if left.res.Ok? {
        EvalSound(r, env, left.st, fs);
        var right := Eval(r, env, left.st);
        if right.res.Ok? {
          ApplyBinarySound(op, left.res.value, right.res.value, Check(l, env).value, Check(r, env).value);
        }
      }
    case Call(fn, p) =>
      EvalSound(p, env, st, fs);
      var params := Eval(p, env, st);
      if params.res.Ok? {
        if fn.FPairKeys? {
          PairKeysSound(p, params.res.value, env, params.st, fs);
        } else {
          ApplyFunctionSound(fn, params.res.value, Check(p, env).value);
        }
      }
  }

  lemma {:induction false} PairKeysSound(p: Expr, v: Value, env: Env, st: Fuzz, fs: set<Fault>)
    requires Conforms(env) && Ready(p, env) && FunctionType(FPairKeys, Check(p, env).value).Some?
    requires Tame(p, env, fs)
    requires HasType(v, Check(p, env).value)
    ensures var ret := FunctionType(FPairKeys, Check(p, env).value).value;
      && Args(v, 2) && v.items[0].VArray?
      && Sound(EvalPairs(p, ret, v.items[0].items, env, st).res, ret, fs)
    decreases p, 2
  {
    hide WellFormed, TypeOf, Check, Guarded;
    var pt := Check(p, env).value;
    assert Subtype(pt.items[0], TArray(TBasic));
    var elem := TEntry(pt.items[0].elem, pt.items[1]);
    TupleItems(v, pt.items);
    ArrayItems(v.items[0], pt.items[0].elem);
    CheckUsable(p, env);
    FunctionTypeUsable(FPairKeys, pt);
    EvalPairListSound(p, pt.items, elem, v.items[0].items, env, st, fs);
    var out := EvalPairList(p, v.items[0].items, env, st);
    if out.res.Ok? {
      BuildSound(elem, out.res.value);
    }
  }

  lemma {:induction false} EvalPairListSound(p: Expr, ts: seq<Ty>, elem: Ty, keys: seq<Value>, env: Env,
                                             st: Fuzz, fs: set<Fault>)
    requires Conforms(env) && Ready(p, env) && Check(p, env) == Some(TTuple(ts)) && |ts| == 2
    requires Tame(p, env, fs)
    requires elem.TEntry? && Basic(elem.key) && elem.val == ts[1] && AllOfType(keys, elem.key)
    ensures SoundAll(EvalPairList(p, keys, env, st).res, elem, fs)
    decreases p, 1, |keys|
  {
    if keys != [] {
      EvalSound(p, env, st, fs);
      var params := Eval(p, env, st);
      if params.res.Ok? {
        TupleItems(params.res.value, ts);
        EvalPairListSound(p, ts, elem, keys[1..], env, params.st, fs);
        EntryOfType(keys[0], params.res.value.items[1], elem);
      }
    }
  }

  lemma EntryOfType(k: Value, v: Value, elem: Ty)
    requires elem.TEntry? && Basic(elem.key) && HasType(k, elem.key) && HasType(v, elem.val)
    ensures HasType(VEntry(k, v), elem)
  {
  }

  lemma {:induction false} EvalLiteralSound(id: nat, ty: Ty, lit: Literal, env: Env, st: Fuzz, fs: set<Fault>)
    requires Conforms(env) && LiteralReady(ty, lit, env)
    requires TameLiteral(lit, env, fs)
    ensures Sound(EvalLiteral(id, ty, lit, env, st).res, ty, fs)
    decreases lit, 1
  {
    hide WellFormed, TypeOf, CheckLiteral, Check, Guarded;
    match lit
    case LArray(_) => EvalArraySound(id, ty, lit, env, st, fs);
    case LStruct(_) => EvalStructSound(id, ty, lit, env, st, fs);
    case LVariant(_) => EvalVariantSound(id, ty, lit, env, st, fs);
    case LDict(_) => EvalDictSound(id, ty, lit, env, st, fs);
    case _ => EvalAtomSound(id, ty, lit, env, st);
  }

  lemma EvalAtomSound(id: nat, ty: Ty, lit: Literal, env: Env, st: Fuzz)
    requires Conforms(env) && LiteralReady(ty, lit, env)
    requires !lit.LArray? && !lit.LStruct? && !lit.LVariant? && !lit.LDict?
    ensures Sound(EvalLiteral(id, ty, lit, env, st).res, ty, {})
  {
    match lit
    case LInt(k, n) => FuzzIntInRange(k, n, st);
    case LPath(p) => FuzzPathValid(p, st);
    case _ =>
  }

  lemma {:induction false} EvalArraySound(id: nat, ty: Ty, lit: Literal, env: Env, st: Fuzz, fs: set<Fault>)
    requires lit.LArray? && Conforms(env) && LiteralReady(ty, lit, env)
    requires TameLiteral(lit, env, fs)
    ensures Sound(EvalLiteral(id, ty, lit, env, st).res, ty, fs)
    decreases lit, 0
  {
    hide WellFormed, TypeOf, Check, Guarded, CheckLiteral, GuardedLiteral;
    ElementsReady(lit.items, ty, env);
    var st0 := if st.Fuzzes(id) then st.Advance() else st;
    EvalElementsSound(id, ty.elem, lit.items, env, st0, fs);
    ArrayOutSound(ty, EvalElements(id, ty.elem, lit.items, env, st0).res, fs);
  }

  lemma {:induction false} EvalStructSound(id: nat, ty: Ty, lit: Literal, env: Env, st: Fuzz, fs: set<Fault>)
    requires lit.LStruct? && Conforms(env) && LiteralReady(ty, lit, env)
    requires TameLiteral(lit, env, fs)
    ensures Sound(EvalLiteral(id, ty, lit, env, st).res, ty, fs)
    decreases lit, 0
  {
    var ts := CheckAll(lit.items, env).value;
    EvalAllSound(lit.items, ts, env, st, fs);
    var out := EvalAll(lit.items, env, st);
    if out.res.Ok? { TupleOf(out.res.value, ts); }
  }

  lemma {:induction false} EvalVariantSound(id: nat, ty: Ty, lit: Literal, env: Env, st: Fuzz, fs: set<Fault>)
    requires lit.LVariant? && Conforms(env) && LiteralReady(ty, lit, env)
    requires TameLiteral(lit, env, fs)
    ensures Sound(EvalLiteral(id, ty, lit, env, st).res, ty, fs)
    decreases lit, 0
  {
    EvalSound(lit.inner, env, st, fs);
    var out := Eval(lit.inner, env, st);
    if out.res.Ok? { FuzzVariantSound(out.res.value, out.st); }
  }

  lemma {:induction false} EvalDictSound(id: nat, ty: Ty, lit: Literal, env: Env, st: Fuzz, fs: set<Fault>)
    requires lit.LDict? && Conforms(env) && LiteralReady(ty, lit, env)
    requires TameLiteral(lit, env, fs)
    ensures Sound(EvalLiteral(id, ty, lit, env, st).res, ty, fs)
    decreases lit, 0
  {
    hide WellFormed, TypeOf, Check, Guarded, CheckLiteral, GuardedLiteral;
    EntriesReady(lit.entries, ty, env);
    var st0 := if st.Fuzzes(id) then st.Advance() else st;
    EvalEntriesSound(id, ty.elem, lit.entries, env, st0, fs);
    ArrayOutSound(ty, EvalEntries(id, ty.elem, lit.entries, env, st0).res, fs);
  }

  /** The two ways an array or dictionary literal is finished: emptied by fuzzing, or built of its children. */
  lemma ArrayOutSound(ty: Ty, r: Result<seq<Value>>, fs: set<Fault>)
    requires ty.TArray? && Usable(ty) && SoundAll(r, ty.elem, fs)
    ensures HasType(VArray(ty.elem, []), ty)
    ensures Sound(if r.Fail? then Fail(r.fault) else Ok(VArray(ty.elem, r.value)), ty, fs)
  {
  }

  lemma ElementsReady(items: seq<Expr>, ty: Ty, env: Env)
    requires UsableTypes(env) && LiteralReady(ty, LArray(items), env)
    ensures ty.TArray? && forall i | 0 <= i < |items| :: Ready(items[i], env) && Check(items[i], env) == Some(ty.elem)
  {
    ElementsHaveType(items, ty, env);
  }

  lemma EntriesReady(entries: seq<Entry>, ty: Ty, env: Env)
    requires UsableTypes(env) && LiteralReady(ty, LDict(entries), env)
    ensures IsDictType(ty)
    ensures forall i | 0 <= i < |entries| :: ReadyEntry(entries[i], env) && CheckEntry(entries[i], env) == Some(ty.elem)
  {
    EntriesHaveType(entries, ty, env);
    forall i | 0 <= i < |entries| ensures ReadyEntry(entries[i], env) {
      assert CheckEntry(entries[i], env).Some?;
    }
  }

  lemma FuzzVariantSound(v: Value, st: Fuzz)
    requires WellFormed(v)
    ensures Sound(FuzzVariant(v, st).res, TVariant, {})
  {
    var (n, st') := FuzzInt(UInt32, 0, st.Advance());
    FuzzIntInRange(UInt32, 0, st.Advance());
    assert WellFormed(VInt(UInt32, n)) && WellFormed(VString(st.Advance().Peek().text));
  }

  lemma {:induction false} EvalAllSound(es: seq<Expr>, ts: seq<Ty>, env: Env, st: Fuzz, fs: set<Fault>)
    requires Conforms(env) && |es| == |ts|
    requires forall i | 0 <= i < |es| :: Tame(es[i], env, fs)
    requires forall i | 0 <= i < |es| :: Ready(es[i], env) && Check(es[i], env) == Some(ts[i])
    ensures SoundTuple(EvalAll(es, env, st).res, ts, fs)
    decreases es, 0
  {
    if es != [] {
      EvalSound(es[0], env, st, fs);
      var first := Eval(es[0], env, st);
      if first.res.Ok? {
        EvalAllSound(es[1..], ts[1..], env, first.st, fs);
      }
    }
  }

  lemma {:induction false} FuzzCloneSound(e: Expr, env: Env, st: Fuzz, fs: set<Fault>)
    requires Conforms(env) && Ready(e, env) && e.Data?
    requires Tame(e, env, fs)
    ensures Sound(FuzzClone(e, env, st).res, Check(e, env).value, fs)
    decreases e, 1
  {
    var before := st.Weight(e.id);
    EvalSound(e, env, st.SetWeight(e.id, if before > 1.0 then before else 1.0), fs);
  }

  lemma {:induction false} EvalElementSound(id: nat, e: Expr, env: Env, st: Fuzz, fs: set<Fault>)
    requires Conforms(env) && Ready(e, env)
    requires Tame(e, env, fs)
    ensures SoundAll(EvalElement(id, e, env, st).res, Check(e, env).value, fs)
    decreases e, 2
  {
    var st0 := if st.Fuzzes(id) then st.Advance() else st;
    EvalSound(e, env, st0, fs);
    var out := Eval(e, env, st0);
    if out.res.Ok? && e.Data? {
      var st2 := if out.st.Fuzzes(id) then out.st.Advance() else out.st;
      FuzzCloneSound(e, env, st2.Advance(), fs);
    }
  }

  lemma {:induction false} EvalElementsSound(id: nat, elem: Ty, es: seq<Expr>, env: Env, st: Fuzz, fs: set<Fault>)
    requires Conforms(env)
    requires forall i | 0 <= i < |es| :: Tame(es[i], env, fs)
    requires forall i | 0 <= i < |es| :: Ready(es[i], env) && Check(es[i], env) == Some(elem)
    ensures SoundAll(EvalElements(id, elem, es, env, st).res, elem, fs)
    decreases es, 0
  {
    hide Check, Guarded, WellFormed;
    if es != [] {
      EvalElementSound(id, es[0], env, st, fs);
      var first := EvalElement(id, es[0], env, st);
      if first.res.Ok? {
        EvalElementsSound(id, elem, es[1..], env, first.st, fs);
      }
    }
  }

  predicate ReadyEntry(entry: Entry, env: Env) {
    Ready(entry.key, env) && Ready(entry.val, env)
  }

  lemma {:induction false} CloneEntrySound(entry: Entry, v: Value, elem: Ty, env: Env, st: Fuzz, fs: set<Fault>)
    requires Conforms(env) && ReadyEntry(entry, env) && CheckEntry(entry, env) == Some(elem)
    requires TameEntry(entry, env, fs)
    requires entry.key.Data? && entry.val.Data?
    requires elem.TEntry? && Basic(elem.key) && HasType(v, elem.val)
    ensures Sound(CloneEntry(entry, v, env, st).res, elem, fs)
    decreases entry, 0
  {
    hide Check, Guarded, WellFormed, TypeOf;
    FuzzCloneSound(entry.key, env, st, fs);
    var key := FuzzClone(entry.key, env, st);
    if key.res.Ok? {
      FuzzCloneSound(entry.val, env, key.st.Advance(), fs);
      var clone := FuzzClone(entry.val, env, key.st.Advance());
      EntryOfType(key.res.value, v, elem);
      if clone.res.Ok? { EntryOfType(key.res.value, clone.res.value, elem); }
    }
  }

  lemma {:induction false} EvalEntrySound(id: nat, entry: Entry, elem: Ty, env: Env, st: Fuzz, fs: set<Fault>)
    requires Conforms(env) && ReadyEntry(entry, env) && CheckEntry(entry, env) == Some(elem)
    requires TameEntry(entry, env, fs)
    requires elem.TEntry? && Basic(elem.key)
    ensures SoundAll(EvalEntry(id, entry, env, st).res, elem, fs)
    decreases entry, 1
  {
    var st0 := if st.Fuzzes(id) then st.Advance() else st;
    EvalSound(entry.key, env, st0, fs);
    var key := Eval(entry.key, env, st0);
    if key.res.Ok? {
      EvalSound(entry.val, env, key.st, fs);
      var val := Eval(entry.val, env, key.st);
      if val.res.Ok? && entry.key.Data? && entry.val.Data? {
        CloneEntrySound(entry, val.res.value, elem, env, val.st.Advance(), fs);
      }
    }
  }

  lemma {:induction false} EvalEntriesSound(id: nat, elem: Ty, es: seq<Entry>, env: Env, st: Fuzz, fs: set<Fault>)
    requires Conforms(env) && elem.TEntry? && Basic(elem.key)
    requires forall i | 0 <= i < |es| :: TameEntry(es[i], env, fs)
    requires forall i | 0 <= i < |es| :: ReadyEntry(es[i], env) && CheckEntry(es[i], env) == Some(elem)
    ensures SoundAll(EvalEntries(id, elem, es, env, st).res, elem, fs)
    decreases es, 0
  {
    hide WellFormed, TypeOf, Check, Guarded;
    if es != [] {
      EvalEntrySound(id, es[0], elem, env, st, fs);
      var first := EvalEntry(id, es[0], env, st);
      if first.res.Ok? {
        EvalEntriesSound(id, elem, es[1..], env, first.st, fs);
      }
    }
  }
}
