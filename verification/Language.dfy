/**
 The expression language: its syntax, the environment its variables live in, and its type checker, as
 the checker is written.
 */
module Language {
  import opened Results
  import opened VariantTypes
  import opened SaturatingArithmetic

  // ----- environments -----------------------------------------------------------------------------

  datatype Scope = Local | Object

  /** A variable is declared with a type first and given a value later. */
  datatype Variable = Variable(ty: Ty, value: Option<Value>)

  datatype Env = Env(locals: map<string, Variable>, objects: map<string, Variable>) {
    function Table(scope: Scope): map<string, Variable> {
      if scope.Local? then locals else objects
    }

    function With(scope: Scope, table: map<string, Variable>): Env {
      if scope.Local? then this.(locals := table) else this.(objects := table)
    }
  }

  predicate Usable(t: Ty) {
    Definite(t) && BasicKeys(t)
  }

  predicate ConformingVariable(v: Variable) {
    Usable(v.ty) && v.value.Some? && HasType(v.value.value, v.ty)
  }

  /** Every variable holds a value of its declared type. */
  predicate Conforms(env: Env) {
    && (forall x :: x in env.locals ==> ConformingVariable(env.locals[x]))
    && (forall x :: x in env.objects ==> ConformingVariable(env.objects[x]))
  }

  /** The variables of two environments agree in name and type, whatever their values. */
  predicate SameTypes(env: Env, env': Env) {
    && SameTableTypes(env.locals, env'.locals)
    && SameTableTypes(env.objects, env'.objects)
  }

  predicate SameTableTypes(m: map<string, Variable>, m': map<string, Variable>) {
    m.Keys == m'.Keys && forall x :: x in m ==> m[x].ty == m'[x].ty
  }

  // ----- syntax -----------------------------------------------------------------------------------

  datatype BinOp = Arith(op: ArithOp) | Lt | Lte | Gt | Gte | Eq | Neq | And | Or

  datatype Function =
    | FKeys | FPairKeys | FInArray | FArrayGet | FArrayInsert | FArrayRemove
    | FDictSet | FDictUnset | FDictGet | FDictToTupleArray | FStructHead | FStringJoin

  /** Each data structure node has an identity, under which its fuzzing weight is kept. */
  datatype Expr =
    | Data(id: nat, annotation: Option<Ty>, lit: Literal)
    | Not(child: Expr)
    | Binary(op: BinOp, left: Expr, right: Expr)
    | Call(fn: Function, params: Expr)

  datatype Literal =
    | LBool(b: bool)
    | LInt(kind: IntKind, n: int)
    | LDouble(x: real)
    | LString(s: string)
    | LPath(path: string)
    | LSignature(ty: Ty)
    | LArray(items: seq<Expr>)
    | LStruct(items: seq<Expr>)
    | LVariant(inner: Expr)
    | LDict(entries: seq<Entry>)
    | LVariable(scope: Scope, name: string)

  datatype Entry = Entry(key: Expr, val: Expr)

  /** What parsing and the pre-check leave: numbers in range, valid paths, valid type strings. */
  predicate Parsed(e: Expr) {
    match e
    case Data(_, annotation, lit) => (annotation.Some? ==> BasicKeys(annotation.value)) && ParsedLiteral(lit)
    case Not(c) => Parsed(c)
    case Binary(_, l, r) => Parsed(l) && Parsed(r)
    case Call(_, p) => Parsed(p)
  }

  predicate ParsedLiteral(lit: Literal) {
    match lit
    case LInt(k, n) => InRange(k, n)
    case LPath(p) => IsObjectPath(p)
    case LSignature(t) => BasicKeys(t)
    case LArray(items) => forall i | 0 <= i < |items| :: Parsed(items[i])
    case LStruct(items) => forall i | 0 <= i < |items| :: Parsed(items[i])
    case LVariant(inner) => Parsed(inner)
    case LDict(entries) => forall i | 0 <= i < |entries| :: Parsed(entries[i].key) && Parsed(entries[i].val)
    case _ => true
  }

  // ----- the type checker, as written -------------------------------------------------------------

  /** One step of the inference of a container's element type: give up to the top type on any mismatch. */
  function Generalise(acc: Option<Ty>, t: Ty, top: Ty): Option<Ty> {
    match acc
    case None => Some(t)
    case Some(a) => if Subtype(t, a) then acc else Some(top)
  }

  function LeastGeneral(acc: Option<Ty>, ts: seq<Ty>, top: Ty): Option<Ty>
    decreases |ts|
  {
    if ts == [] then acc else LeastGeneral(Generalise(acc, ts[0], top), ts[1..], top)
  }

  /** The type the checker gives an expression; None where it reports an error or aborts. */
  function Check(e: Expr, env: Env): Option<Ty> {
    match e
    case Data(_, annotation, lit) =>
      var calculated :- CheckLiteral(lit, env);
      if annotation.Some? && !Subtype(annotation.value, calculated) then None else
        var ty := if annotation.Some? then annotation.value else calculated;
        if Definite(ty) then Some(ty) else None
    case Not(c) =>
      var t :- Check(c, env);
      if Subtype(t, TBool) then Some(TBool) else None
    case Binary(op, l, r) =>
      var lt :- Check(l, env);
      var rt :- Check(r, env);
      if !OperandsAccepted(op, lt, rt) then None
      else if op.Arith? then Some(lt) else Some(TBool)
    case Call(fn, p) =>
      var pt :- Check(p, env);
      FunctionType(fn, pt)
  }

  /**
   The operand test of a binary operator. The numeric test on the arithmetic and ordering operators is
   overwritten by the test for equal types, into which its case falls through.
   */
  predicate OperandsAccepted(op: BinOp, l: Ty, r: Ty) {
    if op.And? || op.Or? then Subtype(l, TBool) && Subtype(r, TBool) else l == r
  }

  function CheckLiteral(lit: Literal, env: Env): Option<Ty> {
    match lit
    case LBool(_) => Some(TBool)
    case LInt(k, _) => Some(TInt(k))
    case LDouble(_) => Some(TDouble)
    case LString(_) => Some(TString)
    case LPath(_) => Some(TPath)
    case LSignature(_) => Some(TSignature)
    case LArray(items) =>
      var ts :- CheckAll(items, env);
      Some(TArray(LeastGeneral(None, ts, TAny).GetOr(TAny)))
    case LStruct(items) =>
      var ts :- CheckAll(items, env);
      Some(TTuple(ts))
    case LVariant(inner) =>
      var _ :- Check(inner, env);
      Some(TVariant)
    case LDict(entries) =>
      var ts :- CheckEntries(entries, env);
      Some(TArray(TEntry(LeastGeneral(None, KeyTypes(ts), TBasic).GetOr(TBasic),
                         LeastGeneral(None, ValTypes(ts), TAny).GetOr(TAny))))
    case LVariable(scope, name) =>
      if name in env.Table(scope) then Some(env.Table(scope)[name].ty) else None
  }

  function CheckAll(es: seq<Expr>, env: Env): (r: Option<seq<Ty>>)
    ensures r.Some? ==> |r.value| == |es| && forall i | 0 <= i < |es| :: Check(es[i], env) == Some(r.value[i])
  {
    if es == [] then Some([]) else
      var t :- Check(es[0], env);
      var ts :- CheckAll(es[1..], env);
      Some([t] + ts)
  }

  function CheckEntry(entry: Entry, env: Env): (r: Option<Ty>)
    ensures r.Some? ==> r.value.TEntry?
  {
    var k :- Check(entry.key, env);
    var v :- Check(entry.val, env);
    Some(TEntry(k, v))
  }

  function CheckEntries(es: seq<Entry>, env: Env): (r: Option<seq<Ty>>)
    ensures r.Some? ==> |r.value| == |es|
    ensures r.Some? ==> forall i | 0 <= i < |es| :: r.value[i].TEntry? && CheckEntry(es[i], env) == Some(r.value[i])
  {
    if es == [] then Some([]) else
      var t :- CheckEntry(es[0], env);
      var ts :- CheckEntries(es[1..], env);
      Some([t] + ts)
  }

  function KeyTypes(ts: seq<Ty>): (ks: seq<Ty>)
    requires forall i | 0 <= i < |ts| :: ts[i].TEntry?
    ensures |ks| == |ts| && forall i | 0 <= i < |ts| :: ks[i] == ts[i].key
  {
    seq(|ts|, i requires 0 <= i < |ts| => ts[i].key)
  }

  function ValTypes(ts: seq<Ty>): (vs: seq<Ty>)
    requires forall i | 0 <= i < |ts| :: ts[i].TEntry?
    ensures |vs| == |ts| && forall i | 0 <= i < |ts| :: vs[i] == ts[i].val
  {
    seq(|ts|, i requires 0 <= i < |ts| => ts[i].val)
  }

  /** The builtin functions' parameter checks and return types. */
  function FunctionType(fn: Function, p: Ty): Option<Ty> {
    match fn
    case FKeys =>
      if IsDictType(p) then Some(TArray(p.elem.key)) else None
    case FPairKeys =>
      if Takes(p, [TArray(TBasic), TAny]) then Some(TArray(TEntry(p.items[0].elem, p.items[1]))) else None
    case FInArray =>
      if Takes(p, [TAny, TArray(TAny)]) && Subtype(p.items[0], p.items[1].elem) then Some(TBool) else None
    case FArrayGet =>
      if ArrayParameters(p) then Some(p.items[2]) else None
    case FArrayInsert =>
      if ArrayParameters(p) then Some(p.items[0]) else None
    case FArrayRemove =>
      if Takes(p, [TArray(TAny), TInt(UInt32)]) then Some(p.items[0]) else None
    case FDictSet =>
      if DictParameters(p) then Some(p.items[0]) else None
    case FDictUnset =>
      if Takes(p, [TAny, TBasic]) && IsDictType(p.items[0]) && Subtype(p.items[1], p.items[0].elem.key)
      then Some(p.items[0]) else None
    case FDictGet =>
      if DictParameters(p) then Some(p.items[2]) else None
    case FDictToTupleArray =>
      if Takes(p, [TAny]) && IsDictType(p.items[0])
      then Some(TArray(TTuple([p.items[0].elem.key, p.items[0].elem.val]))) else None
    case FStructHead =>
      // An empty struct passes the parameter check, but its first item has no type and the checker aborts.
      if Takes(p, [TAnyTuple]) && p.items[0].TTuple? && |p.items[0].items| > 0 then Some(p.items[0].items[0]) else None
    case FStringJoin =>
      if Takes(p, [TString, TArray(TString)]) then Some(TString) else None
  }

  /** The subtypes of `a{?*}`, the type of every dictionary. */
  predicate IsDictType(t: Ty) {
    t.TArray? && t.elem.TEntry? && Basic(t.elem.key)
  }

  lemma DictTypesAreSubtypes(t: Ty)
    ensures IsDictType(t) <==> Subtype(t, TArray(TEntry(TBasic, TAny)))
  {
    if t.TArray? {
      assert Subtype(t, TArray(TEntry(TBasic, TAny))) <==> Subtype(t.elem, TEntry(TBasic, TAny));
    }
  }

  /** The parameter check against a tuple of patterns, item by item. */
  predicate Takes(p: Ty, patterns: seq<Ty>) {
    && p.TTuple? && |p.items| == |patterns|
    && forall i | 0 <= i < |patterns| :: Subtype(p.items[i], patterns[i])
  }

  predicate ArrayParameters(p: Ty) {
    && Takes(p, [TArray(TAny), TInt(UInt32), TAny])
    && p.items[0].TArray? && Subtype(p.items[2], p.items[0].elem)
  }

  predicate DictParameters(p: Ty) {
    && Takes(p, [TAny, TBasic, TAny]) && IsDictType(p.items[0])
    && Subtype(p.items[1], p.items[0].elem.key)
    && Subtype(p.items[2], p.items[0].elem.val)
  }

  // ----- what the checker ought to have tested ----------------------------------------------------

  /**
   The tests missing from the checker. Ordering and arithmetic need operands that can be compared or
   computed with; an annotation may only give a type to an empty container; a signature literal must be
   a D-Bus signature; the keys of a dictionary literal must be basic.
   */
  predicate Guarded(e: Expr, env: Env) {
    match e
    case Data(_, _, lit) => GuardedLiteral(lit, env)
    case Not(c) => Guarded(c, env)
    case Binary(op, l, r) => Guarded(l, env) && Guarded(r, env) && GuardedOperands(op, Check(l, env))
    case Call(_, p) => Guarded(p, env)
  }

  predicate GuardedOperands(op: BinOp, l: Option<Ty>) {
    match op
    case Arith(_) => l.Some? && Numeric(l.value)
    case Lt => l.Some? && Basic(l.value)
    case Lte => l.Some? && Basic(l.value)
    case Gt => l.Some? && Basic(l.value)
    case Gte => l.Some? && Basic(l.value)
    case _ => true
  }

  predicate GuardedLiteral(lit: Literal, env: Env) {
    match lit
    case LSignature(t) => DBusType(t)
    case LArray(items) =>
      && (forall i | 0 <= i < |items| :: Guarded(items[i], env))
      && (items != [] ==> DefiniteLiteral(lit, env))
    case LStruct(items) => forall i | 0 <= i < |items| :: Guarded(items[i], env)
    case LVariant(inner) => Guarded(inner, env)
    case LDict(entries) =>
      && (forall i | 0 <= i < |entries| :: Guarded(entries[i].key, env) && Guarded(entries[i].val, env))
      && (entries != [] ==> DefiniteLiteral(lit, env) && BasicKeys(CheckLiteral(lit, env).value))
    case _ => true
  }

  predicate DefiniteLiteral(lit: Literal, env: Env) {
    CheckLiteral(lit, env).Some? && Definite(CheckLiteral(lit, env).value)
  }

  /** The faults types cannot rule out. */
  predicate Untypable(f: Fault) {
    f.DuplicateKey? || f.SignedOverflow?
  }

  const UNTYPABLE: set<Fault> := {DuplicateKey, SignedOverflow}

  /** Only `*` and `%` overflow, and only on the signed types that integer promotion does not widen. */
  predicate MayOverflow(op: BinOp, l: Option<Ty>) {
    op.Arith? && (op.op.Times? || op.op.Modulus?) && l.Some? && l.value.TInt? && WideSigned(l.value.kind)
  }

  /** Of the faults that types cannot rule out, the expression has a source of those in fs at most. */
  predicate Tame(e: Expr, env: Env, fs: set<Fault>) {
    match e
    case Data(_, _, lit) => TameLiteral(lit, env, fs)
    case Not(c) => Tame(c, env, fs)
    case Binary(op, l, r) =>
      Tame(l, env, fs) && Tame(r, env, fs) && (MayOverflow(op, Check(l, env)) ==> SignedOverflow in fs)
    case Call(fn, p) => Tame(p, env, fs) && (fn.FDictSet? ==> DuplicateKey in fs)
  }

  predicate TameLiteral(lit: Literal, env: Env, fs: set<Fault>) {
    match lit
    case LArray(items) => forall i | 0 <= i < |items| :: Tame(items[i], env, fs)
    case LStruct(items) => forall i | 0 <= i < |items| :: Tame(items[i], env, fs)
    case LVariant(inner) => Tame(inner, env, fs)
    case LDict(entries) => forall i | 0 <= i < |entries| :: TameEntry(entries[i], env, fs)
    case _ => true
  }

  predicate TameEntry(entry: Entry, env: Env, fs: set<Fault>) {
    Tame(entry.key, env, fs) && Tame(entry.val, env, fs)
  }

  // ----- facts about the checker ------------------------------------------------------------------

  /** Checking looks only at the types of variables, so running a program never changes what it checks. */
  lemma {:induction false} CheckDependsOnTypes(e: Expr, env: Env, env': Env)
    requires SameTypes(env, env')
    ensures Check(e, env) == Check(e, env')
    decreases e
  {
    match e
    case Data(_, _, lit) => CheckLiteralDependsOnTypes(lit, env, env');
    case Not(c) => CheckDependsOnTypes(c, env, env');
    case Binary(_, l, r) => CheckDependsOnTypes(l, env, env'); CheckDependsOnTypes(r, env, env');
    case Call(_, p) => CheckDependsOnTypes(p, env, env');
  }

  lemma {:induction false} CheckLiteralDependsOnTypes(lit: Literal, env: Env, env': Env)
    requires SameTypes(env, env')
    ensures CheckLiteral(lit, env) == CheckLiteral(lit, env')
    decreases lit
  {
    match lit
    case LArray(items) => CheckAllDependsOnTypes(items, env, env');
    case LStruct(items) => CheckAllDependsOnTypes(items, env, env');
    case LVariant(inner) => CheckDependsOnTypes(inner, env, env');
    case LDict(entries) => CheckEntriesDependsOnTypes(entries, env, env');
    case _ =>
  }

  lemma {:induction false} CheckAllDependsOnTypes(es: seq<Expr>, env: Env, env': Env)
    requires SameTypes(env, env')
    ensures CheckAll(es, env) == CheckAll(es, env')
    decreases es
  {
    if es != [] {
      CheckDependsOnTypes(es[0], env, env');
      CheckAllDependsOnTypes(es[1..], env, env');
    }
  }

  lemma {:induction false} CheckEntryDependsOnTypes(entry: Entry, env: Env, env': Env)
    requires SameTypes(env, env')
    ensures CheckEntry(entry, env) == CheckEntry(entry, env')
    decreases entry
  {
    CheckDependsOnTypes(entry.key, env, env');
    CheckDependsOnTypes(entry.val, env, env');
  }

  lemma {:induction false} CheckEntriesDependsOnTypes(es: seq<Entry>, env: Env, env': Env)
    requires SameTypes(env, env')
    ensures CheckEntries(es, env) == CheckEntries(es, env')
    decreases es
  {
    if es != [] {
      CheckEntryDependsOnTypes(es[0], env, env');
      CheckEntriesDependsOnTypes(es[1..], env, env');
    }
  }

  /** The guard, like the checker, looks only at types. */
  lemma {:induction false} GuardedDependsOnTypes(e: Expr, env: Env, env': Env)
    requires SameTypes(env, env')
    ensures Guarded(e, env) == Guarded(e, env')
    decreases e
  {
    match e
    case Data(_, _, lit) => GuardedLiteralDependsOnTypes(lit, env, env');
    case Not(c) => GuardedDependsOnTypes(c, env, env');
    case Binary(_, l, r) =>
      GuardedDependsOnTypes(l, env, env');
      GuardedDependsOnTypes(r, env, env');
      CheckDependsOnTypes(l, env, env');
    case Call(_, p) => GuardedDependsOnTypes(p, env, env');
  }

  lemma {:induction false} GuardedLiteralDependsOnTypes(lit: Literal, env: Env, env': Env)
    requires SameTypes(env, env')
    ensures GuardedLiteral(lit, env) == GuardedLiteral(lit, env')
    decreases lit
  {
    CheckLiteralDependsOnTypes(lit, env, env');
    match lit
    case LArray(items) =>
      forall i | 0 <= i < |items| ensures Guarded(items[i], env) == Guarded(items[i], env') {
        GuardedDependsOnTypes(items[i], env, env');
      }
    case LStruct(items) =>
      forall i | 0 <= i < |items| ensures Guarded(items[i], env) == Guarded(items[i], env') {
        GuardedDependsOnTypes(items[i], env, env');
      }
    case LVariant(inner) => GuardedDependsOnTypes(inner, env, env');
    case LDict(entries) =>
      forall i | 0 <= i < |entries|
        ensures Guarded(entries[i].key, env) == Guarded(entries[i].key, env')
        ensures Guarded(entries[i].val, env) == Guarded(entries[i].val, env')
      {
        GuardedDependsOnTypes(entries[i].key, env, env');
        GuardedDependsOnTypes(entries[i].val, env, env');
      }
    case _ =>
  }

  /** So does tameness. */
  lemma {:induction false} TameDependsOnTypes(e: Expr, env: Env, env': Env, fs: set<Fault>)
    requires SameTypes(env, env')
    ensures Tame(e, env, fs) == Tame(e, env', fs)
    decreases e
  {
    match e
    case Data(_, _, lit) => TameLiteralDependsOnTypes(lit, env, env', fs);
    case Not(c) => TameDependsOnTypes(c, env, env', fs);
    case Binary(_, l, r) =>
      TameDependsOnTypes(l, env, env', fs);
      TameDependsOnTypes(r, env, env', fs);
      CheckDependsOnTypes(l, env, env');
    case Call(_, p) => TameDependsOnTypes(p, env, env', fs);
  }

  lemma {:induction false} TameLiteralDependsOnTypes(lit: Literal, env: Env, env': Env, fs: set<Fault>)
    requires SameTypes(env, env')
    ensures TameLiteral(lit, env, fs) == TameLiteral(lit, env', fs)
    decreases lit
  {
    match lit
    case LArray(items) =>
      forall i | 0 <= i < |items| ensures Tame(items[i], env, fs) == Tame(items[i], env', fs) {
        TameDependsOnTypes(items[i], env, env', fs);
      }
    case LStruct(items) =>
      forall i | 0 <= i < |items| ensures Tame(items[i], env, fs) == Tame(items[i], env', fs) {
        TameDependsOnTypes(items[i], env, env', fs);
      }
    case LVariant(inner) => TameDependsOnTypes(inner, env, env', fs);
    case LDict(entries) =>
      forall i | 0 <= i < |entries| ensures TameEntry(entries[i], env, fs) == TameEntry(entries[i], env', fs) {
        TameDependsOnTypes(entries[i].key, env, env', fs);
        TameDependsOnTypes(entries[i].val, env, env', fs);
      }
    case _ =>
  }

  /** No expression has a source of any other fault. */
  lemma {:induction false} AlwaysTame(e: Expr, env: Env)
    ensures Tame(e, env, UNTYPABLE)
    decreases e
  {
    match e
    case Data(_, _, lit) => AlwaysTameLiteral(lit, env);
    case Not(c) => AlwaysTame(c, env);
    case Binary(_, l, r) => AlwaysTame(l, env); AlwaysTame(r, env);
    case Call(_, p) => AlwaysTame(p, env);
  }

  lemma {:induction false} AlwaysTameLiteral(lit: Literal, env: Env)
    ensures TameLiteral(lit, env, UNTYPABLE)
    decreases lit
  {
    match lit
    case LArray(items) =>
      forall i | 0 <= i < |items| ensures Tame(items[i], env, UNTYPABLE) { AlwaysTame(items[i], env); }
    case LStruct(items) =>
      forall i | 0 <= i < |items| ensures Tame(items[i], env, UNTYPABLE) { AlwaysTame(items[i], env); }
    case LVariant(inner) => AlwaysTame(inner, env);
    case LDict(entries) =>
      forall i | 0 <= i < |entries| ensures TameEntry(entries[i], env, UNTYPABLE) {
        AlwaysTame(entries[i].key, env);
        AlwaysTame(entries[i].val, env);
      }
    case _ =>
  }

  /** Expressions that check one by one check together. */
  lemma {:induction false} CheckAllIs(es: seq<Expr>, ts: seq<Ty>, env: Env)
    requires |es| == |ts| && forall i | 0 <= i < |es| :: Check(es[i], env) == Some(ts[i])
    ensures CheckAll(es, env) == Some(ts)
    decreases |es|
  {
    hide Check;
    if es != [] {
      CheckAllIs(es[1..], ts[1..], env);
      assert ts == [ts[0]] + ts[1..];
    }
  }

  lemma {:induction false} CheckEntriesIs(es: seq<Entry>, ts: seq<Ty>, env: Env)
    requires |es| == |ts| && forall i | 0 <= i < |es| :: CheckEntry(es[i], env) == Some(ts[i])
    ensures CheckEntries(es, env) == Some(ts)
    decreases |es|
  {
    hide CheckEntry;
    if es != [] {
      CheckEntriesIs(es[1..], ts[1..], env);
      assert ts == [ts[0]] + ts[1..];
    }
  }

  /** The inferred element type is definite just when all the elements have it. */
  lemma {:induction false} LeastGeneralDefinite(acc: Option<Ty>, ts: seq<Ty>, top: Ty)
    requires top == TAny || top == TBasic
    requires acc.Some? ==> Definite(acc.value) || acc.value == top
    requires forall i | 0 <= i < |ts| :: Definite(ts[i])
    requires acc.Some? || ts != []
    ensures LeastGeneral(acc, ts, top).Some?
    ensures var t := LeastGeneral(acc, ts, top).value;
      Definite(t) <==> (acc.Some? ==> Definite(acc.value)) &&
                       forall i | 0 <= i < |ts| :: ts[i] == if acc.Some? then acc.value else ts[0]
    ensures var t := LeastGeneral(acc, ts, top).value;
      Definite(t) ==> t == if acc.Some? then acc.value else ts[0]
    ensures var t := LeastGeneral(acc, ts, top).value;
      !Definite(t) ==> t == top
    decreases |ts|
  {
    if ts != [] {
      var acc' := Generalise(acc, ts[0], top);
      if acc.Some? && Definite(acc.value) { SubtypeOfDefinite(ts[0], acc.value); }
      LeastGeneralDefinite(acc', ts[1..], top);
      assert forall i | 0 < i < |ts| :: ts[i] == ts[1..][i - 1];
      if acc.Some? && !Definite(acc.value) { assert acc.value == top; }
    }
  }
}
