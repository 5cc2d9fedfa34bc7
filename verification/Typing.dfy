/**
 What the checker accepts, said without it: a declarative typing of expressions, in which an operator takes the
 operands on which it cannot go wrong and a builtin function takes the parameters that its type scheme lists.
 The checker with its guard accepts exactly the expressions that have a type.
 */
module Typing {
  import opened Results
  import opened VariantTypes
  import opened Language
  import opened Evaluator
  import opened TypeSoundness
  import opened Statements
  import opened Transitions

  /** Some value has the type. */
  ghost predicate Inhabited(t: Ty) {
    exists v :: HasType(v, t)
  }

  // ----- operators --------------------------------------------------------------------------------

  /** No values of the types make the operator fail for their types; what is tested for equality has one type. */
  ghost predicate Fits(op: BinOp, l: Ty, r: Ty) {
    if op.Eq? || op.Neq? then l == r
    else forall v, w | HasType(v, l) && HasType(w, r) :: ApplyBinary(op, v, w) != Fail(TypeFault)
  }

  /** The operand tests with the guard let through exactly the operands on which an operator cannot go wrong. */
  lemma OperandsIff(op: BinOp, l: Ty, r: Ty)
    requires Inhabited(l) && Inhabited(r)
    ensures OperandsAccepted(op, l, r) && GuardedOperands(op, Some(l)) <==> Fits(op, l, r)
  {
    if OperandsAccepted(op, l, r) && GuardedOperands(op, Some(l)) && !op.Eq? && !op.Neq? {
      forall v, w | HasType(v, l) && HasType(w, r) ensures ApplyBinary(op, v, w) != Fail(TypeFault) {
        ApplyBinarySound(op, v, w, l, r);
      }
    }
    if Fits(op, l, r) && !op.Eq? && !op.Neq? {
      var v :| HasType(v, l);
      var w :| HasType(w, r);
      assert ApplyBinary(op, v, w) != Fail(TypeFault);
      FitsAccepted(op, v, w);
    }
  }

  lemma FitsAccepted(op: BinOp, v: Value, w: Value)
    requires !op.Eq? && !op.Neq? && ApplyBinary(op, v, w) != Fail(TypeFault)
    ensures OperandsAccepted(op, TypeOf(v), TypeOf(w)) && GuardedOperands(op, Some(TypeOf(v)))
  {
  }

  // ----- builtin functions ------------------------------------------------------------------------

  /**
   The types of the builtin functions: of the parameters and of the result, for any basic type k, any type v, and
   any types of the items of a struct after its head.
   */
  function Scheme(fn: Function, k: Ty, v: Ty, rest: seq<Ty>): (Ty, Ty) {
    var dict, index := TArray(TEntry(k, v)), TInt(UInt32);
    match fn
    case FKeys => (dict, TArray(k))
    case FPairKeys => (TTuple([TArray(k), v]), dict)
    case FInArray => (TTuple([v, TArray(v)]), TBool)
    case FArrayGet => (TTuple([TArray(v), index, v]), v)
    case FArrayInsert => (TTuple([TArray(v), index, v]), TArray(v))
    case FArrayRemove => (TTuple([TArray(v), index]), TArray(v))
    case FDictSet => (TTuple([dict, k, v]), dict)
    case FDictUnset => (TTuple([dict, k]), dict)
    case FDictGet => (TTuple([dict, k, v]), v)
    case FDictToTupleArray => (TTuple([dict]), TArray(TTuple([k, v])))
    case FStructHead => (TTuple([TTuple([v] + rest)]), v)
    case FStringJoin => (TTuple([TString, TArray(TString)]), TString)
  }

  /** The parameter checks of a builtin function let through exactly the instances of its type scheme. */
  lemma FunctionTypeIff(fn: Function, p: Ty, ret: Ty)
    requires Definite(p)
    ensures FunctionType(fn, p) == Some(ret) <==>
      exists k, v, rest :: Basic(k) && Definite(k) && Scheme(fn, k, v, rest) == (p, ret)
  {
    if k, v, rest :| Basic(k) && Definite(k) && Scheme(fn, k, v, rest) == (p, ret) {
      InstanceAccepted(fn, k, v, rest);
    }
    if FunctionType(fn, p) == Some(ret) {
      var k, v, rest := AcceptedInstance(fn, p);
    }
  }

  lemma InstanceAccepted(fn: Function, k: Ty, v: Ty, rest: seq<Ty>)
    requires Basic(k)
    ensures FunctionType(fn, Scheme(fn, k, v, rest).0) == Some(Scheme(fn, k, v, rest).1)
  {
    SubtypeReflexive(k);
    SubtypeReflexive(v);
    if fn.FInArray? || fn.FArrayGet? || fn.FArrayInsert? || fn.FArrayRemove? {
      ArrayInstanceAccepted(fn, k, v, rest);
    } else {
      var p := Scheme(fn, k, v, rest).0;
      match fn
      case FStructHead => assert ([v] + rest)[0] == v;
      case FStringJoin =>
        assert Subtype(TArray(TString), TArray(TString));
        assert Takes(p, [TString, TArray(TString)]);
      case FPairKeys => assert Subtype(TArray(k), TArray(TBasic)) && Takes(p, [TArray(TBasic), TAny]);
      case _ =>
    }
  }

  lemma ArrayInstanceAccepted(fn: Function, k: Ty, v: Ty, rest: seq<Ty>)
    requires fn.FInArray? || fn.FArrayGet? || fn.FArrayInsert? || fn.FArrayRemove?
    ensures FunctionType(fn, Scheme(fn, k, v, rest).0) == Some(Scheme(fn, k, v, rest).1)
  {
    hide Subtype;
    SubtypeReflexive(v);
    AnyArray(v);
    var p := Scheme(fn, k, v, rest).0;
    if fn.FInArray? {
      assert Takes(p, [TAny, TArray(TAny)]);
    } else if fn.FArrayRemove? {
      assert Takes(p, [TArray(TAny), TInt(UInt32)]);
    } else {
      assert Takes(p, [TArray(TAny), TInt(UInt32), TAny]);
    }
  }

  lemma AnyArray(v: Ty)
    ensures Subtype(TArray(v), TArray(TAny)) && Subtype(v, TAny) && Subtype(TInt(UInt32), TInt(UInt32))
  {
  }

  lemma AcceptedInstance(fn: Function, p: Ty) returns (k: Ty, v: Ty, rest: seq<Ty>)
    requires Definite(p) && FunctionType(fn, p).Some?
    ensures Basic(k) && Definite(k) && Scheme(fn, k, v, rest) == (p, FunctionType(fn, p).value)
  {
    k, v, rest := TBool, TBool, [];
    match fn
    case FKeys => k, v := p.elem.key, p.elem.val;
    case FPairKeys => k, v := PairInstance(p);
    case FInArray => v := NeedleInstance(p);
    case FArrayGet => v := ArrayInstance(p);
    case FArrayInsert => v := ArrayInstance(p);
    case FArrayRemove =>
      assert Subtype(p.items[0], TArray(TAny)) && Subtype(p.items[1], TInt(UInt32));
      v := p.items[0].elem;
      assert p.items == [TArray(v), TInt(UInt32)];
    case FDictSet => k, v := DictInstance(p);
    case FDictUnset =>
      k, v := EntryInstance(p);
      SubtypeOfDefinite(p.items[1], k);
      assert p.items == [TArray(TEntry(k, v)), k];
    case FDictGet => k, v := DictInstance(p);
    case FDictToTupleArray =>
      k, v := EntryInstance(p);
      assert p.items == [TArray(TEntry(k, v))];
    case FStructHead =>
      v, rest := p.items[0].items[0], p.items[0].items[1..];
      assert p.items[0].items == [v] + rest && p.items == [TTuple([v] + rest)];
    case FStringJoin =>
      assert Subtype(p.items[0], TString) && Subtype(p.items[1], TArray(TString));
      SubtypeOfDefinite(p.items[1], TArray(TString));
      assert p.items == [TString, TArray(TString)];
  }

  lemma EntryInstance(p: Ty) returns (k: Ty, v: Ty)
    requires Definite(p) && p.TTuple? && p.items != [] && IsDictType(p.items[0])
    ensures Basic(k) && Definite(k) && p.items[0] == TArray(TEntry(k, v))
  {
    k, v := p.items[0].elem.key, p.items[0].elem.val;
    assert Definite(p.items[0]) && Definite(p.items[0].elem);
  }

  lemma PairInstance(p: Ty) returns (k: Ty, v: Ty)
    requires Definite(p) && FunctionType(FPairKeys, p).Some?
    ensures Basic(k) && Definite(k) && p == TTuple([TArray(k), v])
  {
    assert Definite(p.items[0]) && Subtype(p.items[0], TArray(TBasic));
    k, v := p.items[0].elem, p.items[1];
    assert Subtype(k, TBasic) && Definite(k);
    assert p.items == [TArray(k), v];
  }

  lemma NeedleInstance(p: Ty) returns (v: Ty)
    requires Definite(p) && FunctionType(FInArray, p).Some?
    ensures p == TTuple([v, TArray(v)])
  {
    v := p.items[0];
    assert Definite(p.items[1]) && Subtype(p.items[1], TArray(TAny));
    SubtypeOfDefinite(v, p.items[1].elem);
    assert p.items == [v, TArray(v)];
  }

  lemma ArrayInstance(p: Ty) returns (v: Ty)
    requires Definite(p) && ArrayParameters(p)
    ensures p == TTuple([TArray(v), TInt(UInt32), v])
  {
    v := p.items[0].elem;
    assert Definite(p.items[0]) && Subtype(p.items[1], TInt(UInt32));
    SubtypeOfDefinite(p.items[2], v);
    assert p.items == [TArray(v), TInt(UInt32), v];
  }

  lemma DictInstance(p: Ty) returns (k: Ty, v: Ty)
    requires Definite(p) && DictParameters(p)
    ensures Basic(k) && Definite(k) && p == TTuple([TArray(TEntry(k, v)), k, v])
  {
    k, v := EntryInstance(p);
    SubtypeOfDefinite(p.items[1], k);
    SubtypeOfDefinite(p.items[2], v) by { assert Definite(p.items[0]) && Definite(p.items[0].elem); }
    assert p.items == [TArray(TEntry(k, v)), k, v];
  }

  // ----- expressions ------------------------------------------------------------------------------

  /** The expression has the type. */
  ghost predicate Typed(e: Expr, env: Env, t: Ty)
    decreases e
  {
    match e
    case Data(_, annotation, lit) =>
      && Usable(t) && TypedLiteral(lit, env, t)
      && (if annotation.Some? then annotation.value == t else lit != LArray([]) && lit != LDict([]))
    case Not(c) => t == TBool && Typed(c, env, TBool)
    case Binary(op, l, r) =>
      exists lt, rt ::
        Typed(l, env, lt) && Typed(r, env, rt) && Fits(op, lt, rt) && t == if op.Arith? then lt else TBool
    case Call(fn, p) =>
      exists pt, k, v, rest :: Typed(p, env, pt) && Basic(k) && Definite(k) && Scheme(fn, k, v, rest) == (pt, t)
  }

  ghost predicate TypedLiteral(lit: Literal, env: Env, t: Ty)
    decreases lit
  {
    match lit
    case LBool(_) => t == TBool
    case LInt(k, _) => t == TInt(k)
    case LDouble(_) => t == TDouble
    case LString(_) => t == TString
    case LPath(_) => t == TPath
    case LSignature(s) => t == TSignature && DBusType(s)
    case LArray(items) => t.TArray? && forall i | 0 <= i < |items| :: Typed(items[i], env, t.elem)
    case LStruct(items) =>
      t.TTuple? && |t.items| == |items| && forall i | 0 <= i < |items| :: Typed(items[i], env, t.items[i])
    case LVariant(inner) => t == TVariant && exists u :: Typed(inner, env, u)
    case LDict(entries) => IsDictType(t) && forall i | 0 <= i < |entries| :: TypedEntry(entries[i], env, t.elem)
    case LVariable(scope, name) => name in env.Table(scope) && env.Table(scope)[name].ty == t
  }

  ghost predicate TypedEntry(entry: Entry, env: Env, t: Ty)
    decreases entry
  {
    t.TEntry? && Typed(entry.key, env, t.key) && Typed(entry.val, env, t.val)
  }

  /** Every variable's type is one that values can have. */
  ghost predicate InhabitedTypes(env: Env) {
    && UsableTypes(env)
    && (forall x :: x in env.locals ==> Inhabited(env.locals[x].ty))
    && (forall x :: x in env.objects ==> Inhabited(env.objects[x].ty))
  }

  lemma ConformingInhabits(env: Env)
    requires Conforms(env)
    ensures InhabitedTypes(env)
  {
    forall x | x in env.locals ensures Inhabited(env.locals[x].ty) {
      assert HasType(env.locals[x].value.value, env.locals[x].ty);
    }
    forall x | x in env.objects ensures Inhabited(env.objects[x].ty) {
      assert HasType(env.objects[x].value.value, env.objects[x].ty);
    }
  }

  // ----- accepted expressions have values of their types ------------------------------------------

  lemma ArrayInhabited(elem: Ty)
    requires Usable(elem)
    ensures Inhabited(TArray(elem))
  {
    assert HasType(VArray(elem, []), TArray(elem));
  }

  lemma AtomInhabited(t: Ty)
    requires t == TBool || t.TInt? || t == TDouble || t == TString || t == TPath || t == TSignature || t == TVariant
    ensures Inhabited(t)
  {
    var v := DefaultValue(t);
  }

  lemma TupleInhabited(ts: seq<Ty>)
    ensures Inhabited(TTuple(ts)) <==> forall i | 0 <= i < |ts| :: Inhabited(ts[i])
  {
    if forall i | 0 <= i < |ts| :: Inhabited(ts[i]) {
      var vs := Witnesses(ts);
      TupleOf(vs, ts);
    }
    if v :| HasType(v, TTuple(ts)) {
      TupleItems(v, ts);
    }
  }

  lemma {:induction false} Witnesses(ts: seq<Ty>) returns (vs: seq<Value>)
    requires forall i | 0 <= i < |ts| :: Inhabited(ts[i])
    ensures |vs| == |ts| && forall i | 0 <= i < |ts| :: HasType(vs[i], ts[i])
    decreases |ts|
  {
    hide WellFormed, TypeOf;
    if ts == [] {
      vs := [];
    } else {
      var rest := Witnesses(ts[1..]);
      var v :| HasType(v, ts[0]);
      vs := [v] + rest;
      assert forall i | 0 < i < |ts| :: vs[i] == rest[i - 1] && ts[i] == ts[1..][i - 1];
    }
  }

  lemma FunctionInhabits(fn: Function, p: Ty)
    requires Usable(p) && Inhabited(p) && FunctionType(fn, p).Some?
    ensures Inhabited(FunctionType(fn, p).value)
  {
    hide HasType, FunctionType;
    FunctionTypeUsable(fn, p);
    var k, v, rest := AcceptedInstance(fn, p);
    var ret := FunctionType(fn, p).value;
    if ret.TArray? {
      ArrayInhabited(ret.elem);
    } else if fn.FInArray? || fn.FStringJoin? {
      AtomInhabited(ret);
    } else {
      TupleInhabited(p.items);
      if fn.FStructHead? {
        TupleInhabited(p.items[0].items);
        assert p.items[0].items[0] == v;
      } else {
        assert p.items[2] == v;
      }
    }
  }

  lemma {:induction false} CheckedInhabited(e: Expr, env: Env)
    requires InhabitedTypes(env) && Ready(e, env)
    ensures Inhabited(Check(e, env).value)
    decreases e
  {
    hide Inhabited;
    CheckUsable(e, env);
    match e
    case Data(_, _, lit) =>
      AcceptedLiteralReady(e, env);
      LiteralInhabited(Check(e, env).value, lit, env);
    case Not(_) => AtomInhabited(TBool);
    case Binary(op, l, _) => if op.Arith? { CheckedInhabited(l, env); } else { AtomInhabited(TBool); }
    case Call(fn, p) =>
      CheckUsable(p, env);
      CheckedInhabited(p, env);
      FunctionInhabits(fn, Check(p, env).value);
  }

  lemma {:induction false} LiteralInhabited(t: Ty, lit: Literal, env: Env)
    requires InhabitedTypes(env) && LiteralReady(t, lit, env)
    ensures Inhabited(t)
    decreases lit
  {
    hide Inhabited;
    match lit
    case LStruct(items) =>
      forall i | 0 <= i < |items| ensures Inhabited(t.items[i]) { CheckedInhabited(items[i], env); }
      TupleInhabited(t.items);
    case LArray(_) => ArrayInhabited(t.elem);
    case LDict(_) => ArrayInhabited(t.elem);
    case LVariable(scope, name) =>
    case _ => AtomInhabited(t);
  }

  // ----- the checker is complete ------------------------------------------------------------------

  /** The expression passes the checks with the type. */
  predicate Passes(e: Expr, env: Env, t: Ty) {
    Check(e, env) == Some(t) && Guarded(e, env)
  }

  /**
   The checker and its guard accept exactly the expressions that have a type, with that type. In particular they
   accept every expression whose operators and builtin functions are applied to operands and parameters that fit.
   */
  lemma {:induction false} TypedIff(e: Expr, env: Env, t: Ty)
    requires InhabitedTypes(env) && Parsed(e)
    ensures Typed(e, env, t) <==> Passes(e, env, t)
    decreases e, 1
  {
    match e
    case Data(_, _, _) => DataTypedIff(e, env, t);
    case Not(c) => TypedIff(c, env, TBool);
    case Binary(op, l, r) => BinaryTypedIff(op, l, r, env, t);
    case Call(fn, p) => CallTypedIff(fn, p, env, t);
  }

  lemma {:induction false} BinaryTypedIff(op: BinOp, l: Expr, r: Expr, env: Env, t: Ty)
    requires InhabitedTypes(env) && Parsed(l) && Parsed(r)
    ensures Typed(Binary(op, l, r), env, t) <==> Passes(Binary(op, l, r), env, t)
    decreases Binary(op, l, r), 0
  {
    hide Fits, OperandsAccepted, GuardedOperands, InhabitedTypes, Typed, Parsed;
    var e := Binary(op, l, r);
    forall u ensures Typed(l, env, u) <==> Passes(l, env, u) { TypedIff(l, env, u); }
    forall u ensures Typed(r, env, u) <==> Passes(r, env, u) { TypedIff(r, env, u); }
    OperandsTyped(op, l, r, env, t);
    if Check(l, env).Some? && Guarded(l, env) && Check(r, env).Some? && Guarded(r, env) {
      CheckedInhabited(l, env);
      CheckedInhabited(r, env);
      OperandsIff(op, Check(l, env).value, Check(r, env).value);
    }
  }

  lemma {:induction false} BinaryMeans(op: BinOp, l: Expr, r: Expr, env: Env, t: Ty)
    ensures Typed(Binary(op, l, r), env, t) <==> exists lt, rt ::
      Typed(l, env, lt) && Typed(r, env, rt) && Fits(op, lt, rt) && t == if op.Arith? then lt else TBool
  {
    hide Fits;
  }

  lemma {:induction false} OperandsTyped(op: BinOp, l: Expr, r: Expr, env: Env, t: Ty)
    requires forall u :: Typed(l, env, u) <==> Passes(l, env, u)
    requires forall u :: Typed(r, env, u) <==> Passes(r, env, u)
    ensures Typed(Binary(op, l, r), env, t) <==>
      && Check(l, env).Some? && Guarded(l, env) && Check(r, env).Some? && Guarded(r, env)
      && Fits(op, Check(l, env).value, Check(r, env).value) && t == if op.Arith? then Check(l, env).value else TBool
  {
    hide Fits, Check, Guarded, Typed;
    BinaryMeans(op, l, r, env, t);
    if Check(l, env).Some? && Guarded(l, env) && Check(r, env).Some? && Guarded(r, env) {
      assert Typed(l, env, Check(l, env).value) && Typed(r, env, Check(r, env).value);
    }
  }

  lemma {:induction false} CallMeans(fn: Function, p: Expr, env: Env, t: Ty)
    ensures Typed(Call(fn, p), env, t) <==> exists pt, k, v, rest ::
      Typed(p, env, pt) && Basic(k) && Definite(k) && Scheme(fn, k, v, rest) == (pt, t)
  {
    hide Scheme;
  }

  lemma {:induction false} CallTypedIff(fn: Function, p: Expr, env: Env, t: Ty)
    requires InhabitedTypes(env) && Parsed(p)
    ensures Typed(Call(fn, p), env, t) <==> Passes(Call(fn, p), env, t)
    decreases Call(fn, p), 0
  {
    hide FunctionType, Scheme, InhabitedTypes, Typed, Parsed;
    CallMeans(fn, p, env, t);
    forall pt ensures Typed(p, env, pt) <==> Passes(p, env, pt) { TypedIff(p, env, pt); }
    if Check(p, env).Some? && Guarded(p, env) {
      var pt := Check(p, env).value;
      InhabitedUsable(env);
      CheckUsable(p, env);
      FunctionTypeIff(fn, pt, t);
      assert Typed(p, env, pt);
    }
  }

  lemma {:induction false} DataTypedIff(e: Expr, env: Env, t: Ty)
    requires InhabitedTypes(env) && Parsed(e) && e.Data?
    ensures Typed(e, env, t) <==> Passes(e, env, t)
    decreases e, 0
  {
    hide InhabitedTypes, TypedLiteral, CheckLiteral, GuardedLiteral, ParsedLiteral, Subtype;
    LiteralTypedIff(e.lit, env, t);
    if Passes(e, env, t) {
      InhabitedUsable(env);
      EmptyIsIndefinite(env);
      CheckUsable(e, env);
      AcceptedLiteralReady(e, env);
      SubtypeReflexive(t);
    }
    if Typed(e, env, t) {
      AnnotationFits(t, e.lit, env);
    }
  }

  lemma TopsAreIndefinite()
    ensures !Definite(TArray(TAny)) && !Definite(TArray(TEntry(TBasic, TAny)))
  {
  }

  lemma EmptyIsIndefinite(env: Env)
    ensures var a, d := CheckLiteral(LArray([]), env), CheckLiteral(LDict([]), env);
      a.Some? && !Definite(a.value) && d.Some? && !Definite(d.value)
  {
    TopsAreIndefinite();
    assert CheckLiteral(LArray([]), env) == Some(TArray(TAny));
    assert CheckLiteral(LDict([]), env) == Some(TArray(TEntry(TBasic, TAny)));
  }

  lemma InhabitedUsable(env: Env)
    requires InhabitedTypes(env)
    ensures UsableTypes(env)
  {
  }

  /** A literal fits a usable type just when it passes the checks at it. */
  lemma {:induction false} LiteralTypedIff(lit: Literal, env: Env, t: Ty)
    requires InhabitedTypes(env) && ParsedLiteral(lit)
    ensures Usable(t) ==> (TypedLiteral(lit, env, t) <==> LiteralReady(t, lit, env))
    decreases lit
  {
    hide InhabitedTypes, TypedLiteral, LiteralReady, Usable;
    if Usable(t) {
      match lit
      case LArray(items) => ArrayTypedIff(items, env, t);
      case LStruct(items) => StructTypedIff(items, env, t);
      case LVariant(inner) => VariantTypedIff(inner, env, t);
      case LDict(entries) => DictTypedIff(entries, env, t);
      case _ => AtomTypedIff(lit, env, t);
    }
  }

  lemma {:induction false} AtomTypedIff(lit: Literal, env: Env, t: Ty)
    requires InhabitedTypes(env) && ParsedLiteral(lit) && Usable(t)
    requires !lit.LArray? && !lit.LStruct? && !lit.LVariant? && !lit.LDict?
    ensures TypedLiteral(lit, env, t) <==> LiteralReady(t, lit, env)
  {
  }

  lemma AnnotationFits(t: Ty, lit: Literal, env: Env)
    requires LiteralReady(t, lit, env)
    ensures Subtype(t, CheckLiteral(lit, env).value)
    ensures lit != LArray([]) && lit != LDict([]) ==> CheckLiteral(lit, env).value == t
  {
    SubtypeReflexive(t);
    if lit == LDict([]) {
      assert CheckLiteral(lit, env).value == TArray(TEntry(TBasic, TAny));
      DictTypesAreSubtypes(t);
    } else if lit == LArray([]) {
      assert CheckLiteral(lit, env).value == TArray(TAny);
      assert Subtype(t, TArray(TAny));
    }
  }

  lemma {:induction false} VariantTypedIff(inner: Expr, env: Env, t: Ty)
    requires InhabitedTypes(env) && Parsed(inner) && Usable(t)
    ensures TypedLiteral(LVariant(inner), env, t) <==> LiteralReady(t, LVariant(inner), env)
    decreases inner, 2
  {
    hide Inhabited, InhabitedTypes, Typed, Check, Guarded, Parsed;
    forall u ensures Typed(inner, env, u) <==> Passes(inner, env, u) { TypedIff(inner, env, u); }
    if Check(inner, env).Some? && Guarded(inner, env) { assert Typed(inner, env, Check(inner, env).value); }
  }

  lemma {:induction false} StructTypedIff(items: seq<Expr>, env: Env, t: Ty)
    requires InhabitedTypes(env) && (forall i | 0 <= i < |items| :: Parsed(items[i])) && Usable(t)
    ensures TypedLiteral(LStruct(items), env, t) <==> LiteralReady(t, LStruct(items), env)
    decreases items
  {
    hide Inhabited, Check, Guarded, Typed;
    forall i, u | 0 <= i < |items| ensures Typed(items[i], env, u) <==> Passes(items[i], env, u) {
      TypedIff(items[i], env, u);
    }
    if TypedLiteral(LStruct(items), env, t) {
      forall i | 0 <= i < |items| ensures Check(items[i], env) == Some(t.items[i]) && Guarded(items[i], env) {
        assert Passes(items[i], env, t.items[i]);
      }
      CheckAllIs(items, t.items, env);
    }
    if LiteralReady(t, LStruct(items), env) {
      forall i | 0 <= i < |items| ensures Typed(items[i], env, t.items[i]) {
        assert Passes(items[i], env, t.items[i]);
      }
    }
  }

  lemma {:induction false} ArrayTypedIff(items: seq<Expr>, env: Env, t: Ty)
    requires InhabitedTypes(env) && (forall i | 0 <= i < |items| :: Parsed(items[i])) && Usable(t)
    ensures TypedLiteral(LArray(items), env, t) <==> LiteralReady(t, LArray(items), env)
    decreases items
  {
    hide Inhabited, Check, Guarded, Typed, UsableTypes;
    forall i, u | 0 <= i < |items| ensures Typed(items[i], env, u) <==> Passes(items[i], env, u) {
      TypedIff(items[i], env, u);
    }
    if TypedLiteral(LArray(items), env, t) {
      forall i | 0 <= i < |items| ensures Check(items[i], env) == Some(t.elem) && Guarded(items[i], env) {
        assert Passes(items[i], env, t.elem);
      }
      var ts := seq(|items|, i => t.elem);
      CheckAllIs(items, ts, env);
      if items != [] { LeastGeneralDefinite(None, ts, TAny); }
    }
    if LiteralReady(t, LArray(items), env) {
      ElementsHaveType(items, t, env);
      forall i | 0 <= i < |items| ensures Typed(items[i], env, t.elem) { assert Passes(items[i], env, t.elem); }
      if items != [] { InferredArray(items, env); }
    }
  }

  lemma InferredArray(items: seq<Expr>, env: Env)
    requires CheckLiteral(LArray(items), env).Some?
    ensures CheckLiteral(LArray(items), env).value.TArray?
  {
  }

  lemma {:induction false} DictTypedIff(entries: seq<Entry>, env: Env, t: Ty)
    requires InhabitedTypes(env) && ParsedLiteral(LDict(entries)) && Usable(t)
    ensures TypedLiteral(LDict(entries), env, t) <==> LiteralReady(t, LDict(entries), env)
    decreases entries
  {
    hide Inhabited, Check, Guarded, Typed, UsableTypes, Parsed;
    forall i, u | 0 <= i < |entries| ensures TypedEntry(entries[i], env, u) <==> PassesEntry(entries[i], env, u) {
      EntryTypedIff(entries[i], env, u);
    }
    if TypedLiteral(LDict(entries), env, t) {
      forall i | 0 <= i < |entries|
        ensures CheckEntry(entries[i], env) == Some(t.elem)
        ensures Guarded(entries[i].key, env) && Guarded(entries[i].val, env)
      {
        assert PassesEntry(entries[i], env, t.elem);
      }
      var ts := seq(|entries|, i => t.elem);
      CheckEntriesIs(entries, ts, env);
      assert Definite(t.elem) && Definite(t.elem.key) && Definite(t.elem.val);
      if entries != [] { EntryTypesAgree(ts); }
    }
    if LiteralReady(t, LDict(entries), env) {
      EntriesHaveType(entries, t, env);
      forall i | 0 <= i < |entries| ensures TypedEntry(entries[i], env, t.elem) {
        assert PassesEntry(entries[i], env, t.elem);
      }
    }
  }

  predicate PassesEntry(entry: Entry, env: Env, t: Ty) {
    CheckEntry(entry, env) == Some(t) && Guarded(entry.key, env) && Guarded(entry.val, env)
  }

  lemma {:induction false} EntryTypedIff(entry: Entry, env: Env, t: Ty)
    requires InhabitedTypes(env) && Parsed(entry.key) && Parsed(entry.val)
    ensures TypedEntry(entry, env, t) <==> PassesEntry(entry, env, t)
    decreases entry
  {
    hide Inhabited, Typed;
    if t.TEntry? {
      TypedIff(entry.key, env, t.key);
      TypedIff(entry.val, env, t.val);
    }
  }

  // ----- statements and transitions ---------------------------------------------------------------

  /** An assignment between one type, a declared signal with parameters of its types, or a reply of the declared one. */
  ghost predicate TypedStatement(s: Statement, cx: Context) {
    match s
    case Assign(target, rvalue) =>
      && StructTarget(target) && Parsed(target) && Parsed(rvalue)
      && exists t :: Typed(target, cx.env, t) && Typed(rvalue, cx.env, t)
    case Throw(_) => true
    case Emit(signal, params) =>
      Parsed(params) && signal in cx.signals && Typed(params, cx.env, TTuple(cx.signals[signal]))
    case Reply(reply) => Parsed(reply) && Typed(reply, cx.env, TTuple(cx.outs))
  }

  lemma {:induction false} StructTargetIsVariable(e: Expr, env: Env)
    requires StructTarget(e)
    ensures IsVariable(e) && Guarded(e, env)
    decreases e
  {
    match e.lit
    case LStruct(items) =>
      forall i | 0 <= i < |items| ensures IsVariable(items[i]) && Guarded(items[i], env) {
        StructTargetIsVariable(items[i], env);
      }
    case _ =>
  }

  /** The checks and the guard of a statement let through exactly the typed ones. */
  lemma StatementTypedIff(s: Statement, cx: Context)
    requires InhabitedTypes(cx.env) && cx.Usable()
    ensures TypedStatement(s, cx) <==> AcceptedStatement(s, cx) && GuardedStatement(s, cx.env)
  {
    hide Typed, InhabitedTypes, DBusType, StructTarget;
    match s
    case Assign(target, rvalue) => AssignTypedIff(target, rvalue, cx);
    case Throw(_) =>
    case Emit(signal, params) => if signal in cx.signals { TupleTypedIff(params, cx.env, cx.signals[signal]); }
    case Reply(reply) => TupleTypedIff(reply, cx.env, cx.outs);
  }

  lemma TupleTypedIff(e: Expr, env: Env, ts: seq<Ty>)
    requires InhabitedTypes(env) && DBusType(TTuple(ts))
    ensures Parsed(e) ==> (Typed(e, env, TTuple(ts)) <==>
      Check(e, env).Some? && Subtype(Check(e, env).value, TTuple(ts)) && Guarded(e, env))
  {
    hide Typed, InhabitedTypes, DBusType, Subtype;
    DBusTypeIsDefinite(TTuple(ts));
    if Parsed(e) {
      TypedIff(e, env, TTuple(ts));
      if Check(e, env).Some? { SubtypeOfDefinite(Check(e, env).value, TTuple(ts)); }
    }
  }

  lemma {:induction false} AssignTypedIff(target: Expr, rvalue: Expr, cx: Context)
    requires InhabitedTypes(cx.env)
    ensures var s := Assign(target, rvalue);
      TypedStatement(s, cx) <==> AcceptedStatement(s, cx) && GuardedStatement(s, cx.env)
  {
    hide Typed, InhabitedTypes, Subtype, Parsed, Guarded, Check, StructTarget, IsVariable;
    if StructTarget(target) && Parsed(target) && Parsed(rvalue) {
      StructTargetIsVariable(target, cx.env);
      TargetIsData(target);
      forall t ensures Typed(target, cx.env, t) <==> Passes(target, cx.env, t) { TypedIff(target, cx.env, t); }
      forall t ensures Typed(rvalue, cx.env, t) <==> Passes(rvalue, cx.env, t) { TypedIff(rvalue, cx.env, t); }
      if Check(target, cx.env).Some? && Check(rvalue, cx.env).Some? {
        InhabitedUsable(cx.env);
        CheckUsable(target, cx.env);
        var t := Check(target, cx.env).value;
        SubtypeOfDefinite(Check(rvalue, cx.env).value, t);
        assert Typed(target, cx.env, t);
        assert Check(rvalue, cx.env) == Some(t) && Guarded(rvalue, cx.env) ==> Typed(rvalue, cx.env, t);
      }
    }
  }

  lemma TargetIsData(e: Expr)
    requires StructTarget(e)
    ensures e.Data?
  {
  }

  /** A transition of the right shape whose conditions are boolean and whose statements are typed. */
  ghost predicate TypedTransition(t: Transition, cx: Context) {
    && WellShaped(t)
    && (forall i | 0 <= i < |t.preconditions| ::
          Parsed(t.preconditions[i].condition) && Typed(t.preconditions[i].condition, cx.env, TBool))
    && (forall i | 0 <= i < |t.statements| :: TypedStatement(t.statements[i], cx))
  }

  /** The checks of a transition, with the guard they lack, let through exactly the typed ones. */
  lemma TransitionTypedIff(t: Transition, cx: Context)
    requires InhabitedTypes(cx.env) && cx.Usable()
    ensures TypedTransition(t, cx) <==> AcceptedTransition(t, cx) && GuardedTransition(t, cx)
  {
    hide Typed, InhabitedTypes, TypedStatement, AcceptedStatement, GuardedStatement, WellShaped, Parsed, Check, Guarded;
    forall i | 0 <= i < |t.preconditions| && Parsed(t.preconditions[i].condition)
      ensures Typed(t.preconditions[i].condition, cx.env, TBool) <==>
        Passes(t.preconditions[i].condition, cx.env, TBool)
    {
      TypedIff(t.preconditions[i].condition, cx.env, TBool);
    }
    forall i | 0 <= i < |t.statements|
      ensures TypedStatement(t.statements[i], cx) <==>
        AcceptedStatement(t.statements[i], cx) && GuardedStatement(t.statements[i], cx.env)
    {
      StatementTypedIff(t.statements[i], cx);
    }
  }
}
