/**
 Writing values down: every value that can exist is the value of a literal, which has its type and passes every
 check. So literals mean what they say.
 */
module Quoting {
  import opened Results
  import opened VariantTypes
  import opened Language
  import opened Evaluator
  import opened EffectFree
  import opened TypeSoundness
  import opened Exactness

  /** Entries occur only in dictionaries, which is so of every value that is not an entry itself. */
  predicate Writable(v: Value) {
    match v
    case VVariant(inner) => Writable(inner)
    case VArray(elem, items) =>
      forall i | 0 <= i < |items| :: if elem.TEntry? then WritableEntry(items[i]) else Writable(items[i])
    case VTuple(items) => forall i | 0 <= i < |items| :: Writable(items[i])
    case VEntry(_, _) => false
    case _ => true
  }

  predicate WritableEntry(v: Value) {
    v.VEntry? && Writable(v.key) && Writable(v.val)
  }

  /** The literal for a value; arrays and dictionaries are annotated with their types, in case they are empty. */
  function Quote(v: Value): Expr
    requires Writable(v)
    decreases v, 1
  {
    Data(0, if v.VArray? then Some(TypeOf(v)) else None, QuoteLiteral(v))
  }

  function QuoteLiteral(v: Value): Literal
    requires Writable(v)
    decreases v, 0
  {
    match v
    case VBool(b) => LBool(b)
    case VInt(k, n) => LInt(k, n)
    case VDouble(x) => LDouble(x)
    case VString(s) => LString(s)
    case VPath(p) => LPath(p)
    case VSignature(t) => LSignature(t)
    case VVariant(inner) => LVariant(Quote(inner))
    case VArray(elem, items) =>
      if elem.TEntry? then LDict(seq(|items|, i requires 0 <= i < |items| => QuoteEntry(items[i])))
      else LArray(seq(|items|, i requires 0 <= i < |items| => Quote(items[i])))
    case VTuple(items) => LStruct(seq(|items|, i requires 0 <= i < |items| => Quote(items[i])))
  }

  function QuoteEntry(v: Value): Entry
    requires WritableEntry(v)
    decreases v, 0
  {
    Entry(Quote(v.key), Quote(v.val))
  }

  /** The literal passes the checks with this type and has this value. */
  predicate Denotes(e: Expr, v: Value, env: Env) {
    Ready(e, env) && Check(e, env) == Some(TypeOf(v)) && Plain(e, env) == Ok(v)
  }

  /** Every value is what its literal evaluates to, whatever the environment. */
  lemma {:induction false} QuoteDenotes(v: Value, env: Env)
    requires WellFormed(v) && Writable(v)
    ensures Denotes(Quote(v), v, env)
    decreases v, 1
  {
    hide Denotes;
    match v
    case VVariant(inner) => QuoteDenotes(inner, env); VariantDenotes(Quote(inner), inner, env);
    case VArray(elem, items) =>
      if elem.TEntry? {
        forall i | 0 <= i < |items| ensures DenotesEntry(QuoteEntry(items[i]), items[i], env) {
          QuoteDenotes(items[i].key, env);
          QuoteDenotes(items[i].val, env);
        }
        DictDenotes(QuoteLiteral(v).entries, elem, items, env);
      } else {
        forall i | 0 <= i < |items| ensures Denotes(Quote(items[i]), items[i], env) { QuoteDenotes(items[i], env); }
        ArrayDenotes(QuoteLiteral(v).items, elem, items, env);
      }
    case VTuple(items) =>
      forall i | 0 <= i < |items| ensures Denotes(Quote(items[i]), items[i], env) { QuoteDenotes(items[i], env); }
      TupleDenotes(QuoteLiteral(v).items, items, env);
    case _ => AtomDenotes(v, env);
  }

  predicate DenotesEntry(entry: Entry, v: Value, env: Env) {
    v.VEntry? && Denotes(entry.key, v.key, env) && Denotes(entry.val, v.val, env)
  }

  lemma AtomDenotes(v: Value, env: Env)
    requires WellFormed(v) && Writable(v) && !v.VVariant? && !v.VArray? && !v.VTuple?
    ensures Denotes(Quote(v), v, env)
  {
    hide EvalLiteral;
    var lit := QuoteLiteral(v);
    AtomParts(v, lit, env);
    assert Check(Data(0, None, lit), env) == Some(TypeOf(v));
  }

  lemma AtomParts(v: Value, lit: Literal, env: Env)
    requires WellFormed(v) && Writable(v) && !v.VVariant? && !v.VArray? && !v.VTuple? && lit == QuoteLiteral(v)
    ensures ParsedLiteral(lit) && GuardedLiteral(lit, env)
    ensures CheckLiteral(lit, env) == Some(TypeOf(v)) && Definite(TypeOf(v))
    ensures EvalLiteral(0, TypeOf(v), lit, env, QUIET).res == Ok(v)
  {
    if v.VSignature? { DBusTypeIsDefinite(v.ty); }
  }

  lemma VariantDenotes(e: Expr, v: Value, env: Env)
    requires Denotes(e, v, env)
    ensures Denotes(Data(0, None, LVariant(e)), VVariant(v), env)
  {
    var lit := LVariant(e);
    assert CheckLiteral(lit, env) == Some(TVariant) && ParsedLiteral(lit) && GuardedLiteral(lit, env);
    PlainIsOff(e, env);
    assert EvalLiteral(0, TVariant, lit, env, QUIET).res == Ok(VVariant(v));
  }

  lemma TupleDenotes(es: seq<Expr>, vs: seq<Value>, env: Env)
    requires |es| == |vs| && forall i | 0 <= i < |es| :: Denotes(es[i], vs[i], env) && WellFormed(vs[i])
    ensures Denotes(Data(0, None, LStruct(es)), VTuple(vs), env)
  {
    hide Check, Eval, Guarded, Parsed, WellFormed;
    var ts := TypeOf(VTuple(vs)).items;
    CheckAllIs(es, ts, env);
    forall i | 0 <= i < |ts| ensures Definite(ts[i]) { WellFormedType(vs[i]); }
    EvalAllIs(es, vs, env);
    StructIs(es, ts, vs, env);
  }

  lemma StructIs(es: seq<Expr>, ts: seq<Ty>, vs: seq<Value>, env: Env)
    requires CheckAll(es, env) == Some(ts) && Definite(TTuple(ts)) && TypeOf(VTuple(vs)) == TTuple(ts)
    requires forall i | 0 <= i < |es| :: Parsed(es[i]) && Guarded(es[i], env)
    requires EvalAll(es, env, QUIET) == Out(Ok(vs), QUIET)
    ensures Denotes(Data(0, None, LStruct(es)), VTuple(vs), env)
  {
    var lit := LStruct(es);
    assert CheckLiteral(lit, env) == Some(TTuple(ts)) && ParsedLiteral(lit) && GuardedLiteral(lit, env);
    assert EvalLiteral(0, TTuple(ts), lit, env, QUIET).res == Ok(VTuple(vs));
  }

  lemma {:induction false} EvalAllIs(es: seq<Expr>, vs: seq<Value>, env: Env)
    requires |es| == |vs| && forall i | 0 <= i < |es| :: Plain(es[i], env) == Ok(vs[i])
    ensures EvalAll(es, env, QUIET) == Out(Ok(vs), QUIET)
    decreases |es|
  {
    hide Eval;
    if es != [] {
      PlainIsOff(es[0], env);
      EvalAllIs(es[1..], vs[1..], env);
      assert vs == [vs[0]] + vs[1..];
    } else {
      assert vs == [];
    }
  }

  lemma ArrayDenotes(es: seq<Expr>, elem: Ty, vs: seq<Value>, env: Env)
    requires WellFormed(VArray(elem, vs)) && !elem.TEntry?
    requires |es| == |vs| && forall i | 0 <= i < |es| :: Denotes(es[i], vs[i], env)
    ensures Denotes(Data(0, Some(TArray(elem)), LArray(es)), VArray(elem, vs), env)
  {
    hide Check, Eval, Guarded, Parsed;
    var ts := seq(|es|, i => elem);
    CheckAllIs(es, ts, env);
    ElementsAre(es, elem, vs, env);
    if es != [] { LeastGeneralDefinite(None, ts, TAny); }
    ArrayIs(es, elem, ts, vs, env);
  }

  lemma {:induction false} ElementsAre(es: seq<Expr>, elem: Ty, vs: seq<Value>, env: Env)
    requires |es| == |vs| && forall i | 0 <= i < |es| :: Plain(es[i], env) == Ok(vs[i]) && TypeOf(vs[i]) == elem
    ensures EvalElements(0, elem, es, env, QUIET) == Out(Ok(vs), QUIET)
    decreases |es|
  {
    hide Eval;
    if es != [] {
      PlainIsOff(es[0], env);
      ElementsAre(es[1..], elem, vs[1..], env);
      assert EvalElement(0, es[0], env, QUIET) == Out(Ok([vs[0]]), QUIET);
      assert vs == [vs[0]] + vs[1..];
    } else {
      assert vs == [];
    }
  }

  lemma ArrayIs(es: seq<Expr>, elem: Ty, ts: seq<Ty>, vs: seq<Value>, env: Env)
    requires CheckAll(es, env) == Some(ts) && Usable(elem)
    requires es != [] ==> LeastGeneral(None, ts, TAny) == Some(elem)
    requires forall i | 0 <= i < |es| :: Parsed(es[i]) && Guarded(es[i], env)
    requires EvalElements(0, elem, es, env, QUIET) == Out(Ok(vs), QUIET)
    ensures Denotes(Data(0, Some(TArray(elem)), LArray(es)), VArray(elem, vs), env)
  {
    hide Eval, EvalElements, EvalLiteral, CheckLiteral, Guarded, Parsed, LeastGeneral;
    var lit, t := LArray(es), TArray(elem);
    ArrayChecks(es, elem, ts, env);
    assert EvalLiteral(0, t, lit, env, QUIET).res == Ok(VArray(elem, vs)) by { ArrayValue(es, elem, vs, env); }
    AnnotatedDenotes(t, lit, VArray(elem, vs), env);
  }

  lemma ArrayChecks(es: seq<Expr>, elem: Ty, ts: seq<Ty>, env: Env)
    requires CheckAll(es, env) == Some(ts) && Usable(elem)
    requires es != [] ==> LeastGeneral(None, ts, TAny) == Some(elem)
    requires forall i | 0 <= i < |es| :: Parsed(es[i]) && Guarded(es[i], env)
    ensures var lit := LArray(es);
      && ParsedLiteral(lit) && GuardedLiteral(lit, env)
      && CheckLiteral(lit, env).Some? && Subtype(TArray(elem), CheckLiteral(lit, env).value)
  {
    SubtypeReflexive(TArray(elem));
    assert Subtype(TArray(elem), TArray(TAny));
  }

  lemma ArrayValue(es: seq<Expr>, elem: Ty, vs: seq<Value>, env: Env)
    requires EvalElements(0, elem, es, env, QUIET) == Out(Ok(vs), QUIET)
    ensures EvalLiteral(0, TArray(elem), LArray(es), env, QUIET).res == Ok(VArray(elem, vs))
  {
    hide EvalElements;
  }

  lemma AnnotatedDenotes(t: Ty, lit: Literal, v: Value, env: Env)
    requires Usable(t) && TypeOf(v) == t && ParsedLiteral(lit) && GuardedLiteral(lit, env)
    requires CheckLiteral(lit, env).Some? && Subtype(t, CheckLiteral(lit, env).value)
    requires EvalLiteral(0, t, lit, env, QUIET).res == Ok(v)
    ensures Denotes(Data(0, Some(t), lit), v, env)
  {
    hide EvalLiteral, CheckLiteral, Subtype, GuardedLiteral, ParsedLiteral;
    assert Check(Data(0, Some(t), lit), env) == Some(t);
  }

  lemma DictDenotes(es: seq<Entry>, elem: Ty, vs: seq<Value>, env: Env)
    requires WellFormed(VArray(elem, vs)) && elem.TEntry?
    requires |es| == |vs| && forall i | 0 <= i < |es| :: DenotesEntry(es[i], vs[i], env)
    ensures Denotes(Data(0, Some(TArray(elem)), LDict(es)), VArray(elem, vs), env)
  {
    hide Check, Eval, Guarded, Parsed;
    var ts := seq(|es|, i => elem);
    forall i | 0 <= i < |es| ensures CheckEntry(es[i], env) == Some(elem) { assert TypeOf(vs[i]) == elem; }
    CheckEntriesIs(es, ts, env);
    EntriesAre(es, elem, vs, env);
    if es != [] { EntryTypesAgree(ts); }
    DictIs(es, elem, ts, vs, env);
  }

  lemma {:induction false} EntriesAre(es: seq<Entry>, elem: Ty, vs: seq<Value>, env: Env)
    requires elem.TEntry? && |es| == |vs|
    requires forall i | 0 <= i < |es| :: DenotesEntry(es[i], vs[i], env) && WellFormed(vs[i]) && TypeOf(vs[i]) == elem
    ensures EvalEntries(0, elem, es, env, QUIET) == Out(Ok(vs), QUIET)
    decreases |es|
  {
    hide Eval, Check, Guarded, Parsed;
    if es != [] {
      PlainIsOff(es[0].key, env);
      PlainIsOff(es[0].val, env);
      EntriesAre(es[1..], elem, vs[1..], env);
      assert EvalEntry(0, es[0], env, QUIET) == Out(Ok([vs[0]]), QUIET);
      assert IsEntryOf(vs[0], elem);
      assert vs == [vs[0]] + vs[1..];
    } else {
      assert vs == [];
    }
  }

  lemma DictIs(es: seq<Entry>, elem: Ty, ts: seq<Ty>, vs: seq<Value>, env: Env)
    requires CheckEntries(es, env) == Some(ts) && elem.TEntry? && Usable(elem)
    requires es != [] ==> EntryType(ts) == elem
    requires forall i | 0 <= i < |es| ::
      && Parsed(es[i].key) && Guarded(es[i].key, env) && Parsed(es[i].val) && Guarded(es[i].val, env)
    requires EvalEntries(0, elem, es, env, QUIET) == Out(Ok(vs), QUIET)
    ensures Denotes(Data(0, Some(TArray(elem)), LDict(es)), VArray(elem, vs), env)
  {
    hide Eval, EvalEntries, EvalLiteral, CheckLiteral, Guarded, Parsed, LeastGeneral;
    var lit, t := LDict(es), TArray(elem);
    DictChecks(es, elem, ts, env);
    assert EvalLiteral(0, t, lit, env, QUIET).res == Ok(VArray(elem, vs)) by { DictValueIs(es, elem, vs, env); }
    AnnotatedDenotes(t, lit, VArray(elem, vs), env);
  }

  lemma DictChecks(es: seq<Entry>, elem: Ty, ts: seq<Ty>, env: Env)
    requires CheckEntries(es, env) == Some(ts) && elem.TEntry? && Usable(elem)
    requires es != [] ==> EntryType(ts) == elem
    requires forall i | 0 <= i < |es| ::
      && Parsed(es[i].key) && Guarded(es[i].key, env) && Parsed(es[i].val) && Guarded(es[i].val, env)
    ensures var lit := LDict(es);
      && ParsedLiteral(lit) && GuardedLiteral(lit, env)
      && CheckLiteral(lit, env).Some? && Subtype(TArray(elem), CheckLiteral(lit, env).value)
  {
    hide LeastGeneral, Check, Guarded, Parsed, Subtype, EntryType;
    var lit := LDict(es);
    assert CheckLiteral(lit, env) == Some(TArray(EntryType(ts))) by { InferredDict(es, ts, env); }
    if es == [] {
      NoEntryType();
      DictTypesAreSubtypes(TArray(elem));
    } else {
      SubtypeReflexive(TArray(elem));
    }
  }

  lemma InferredDict(es: seq<Entry>, ts: seq<Ty>, env: Env)
    requires CheckEntries(es, env) == Some(ts)
    ensures CheckLiteral(LDict(es), env) == Some(TArray(EntryType(ts)))
  {
    hide CheckEntries, LeastGeneral;
  }

  lemma NoEntryType()
    ensures EntryType([]) == TEntry(TBasic, TAny)
  {
    assert KeyTypes([]) == [] && ValTypes([]) == [];
  }

  lemma DictValueIs(es: seq<Entry>, elem: Ty, vs: seq<Value>, env: Env)
    requires EvalEntries(0, elem, es, env, QUIET) == Out(Ok(vs), QUIET)
    ensures EvalLiteral(0, TArray(elem), LDict(es), env, QUIET).res == Ok(VArray(elem, vs))
  {
    hide EvalEntries;
  }
}
