/**
 Which accepted expressions go wrong: exactly the unguarded ones.
 */
module Exactness {
  import opened Results
  import opened VariantTypes
  import opened SaturatingArithmetic
  import opened Language
  import opened Evaluator
  import opened EffectFree
  import opened TypeSoundness
  import opened UniqueKeys

  predicate Accepted(e: Expr, env: Env) {
    Parsed(e) && Check(e, env).Some?
  }

  lemma PlainIsOff(e: Expr, env: Env)
    ensures Eval(e, env, QUIET) == Out(Plain(e, env), QUIET)
  {
    DisabledIsCalm(e, QUIET);
    CalmEval(e, env, QUIET);
  }

  lemma QuietSound(e: Expr, env: Env)
    requires Conforms(env) && Ready(e, env)
    ensures Sound(Plain(e, env), Check(e, env).value, UNTYPABLE)
  {
    AlwaysTame(e, env);
    EvalSound(e, env, QUIET, UNTYPABLE);
  }

  /** Without fuzzing every part of an expression is evaluated, so only a guarded one has a value. */
  lemma {:induction false} PlainValueIsGuarded(e: Expr, env: Env)
    requires Conforms(env) && Accepted(e, env) && Plain(e, env).Ok?
    ensures Guarded(e, env)
    decreases e
  {
    hide ApplyFunction, FunctionType;
    match e
    case Data(id, _, lit) => LiteralValueIsGuarded(id, Check(e, env).value, lit, env);
    case Not(c) => PlainValueIsGuarded(c, env);
    case Binary(op, l, r) =>
      PlainIsOff(l, env);
      PlainValueIsGuarded(l, env);
      PlainValueIsGuarded(r, env);
      QuietSound(l, env);
      if !GuardedOperands(op, Check(l, env)) {
        ApplyBinaryUnguarded(op, Plain(l, env).value, Plain(r, env).value, Check(l, env).value);
      }
    case Call(_, p) => PlainValueIsGuarded(p, env);
  }

  lemma {:induction false} LiteralValueIsGuarded(id: nat, ty: Ty, lit: Literal, env: Env)
    requires Conforms(env) && ParsedLiteral(lit) && CheckLiteral(lit, env).Some?
    requires EvalLiteral(id, ty, lit, env, QUIET).res.Ok?
    ensures GuardedLiteral(lit, env)
    decreases lit
  {
    match lit
    case LArray(items) =>
      ElementsAreGuarded(id, ty.elem, items, env);
      if items != [] {
        var ts := CheckAll(items, env).value;
        forall i | 0 <= i < |items| ensures Definite(ts[i]) && ts[i] == ty.elem { CheckUsable(items[i], env); }
        LeastGeneralDefinite(None, ts, TAny);
      }
    case LStruct(items) => AllAreGuarded(items, env);
    case LVariant(inner) => PlainValueIsGuarded(inner, env);
    case LDict(entries) => DictIsGuarded(id, ty, entries, env);
    case _ =>
  }

  lemma {:induction false} AllAreGuarded(es: seq<Expr>, env: Env)
    requires Conforms(env) && forall i | 0 <= i < |es| :: Accepted(es[i], env)
    requires EvalAll(es, env, QUIET).res.Ok?
    ensures forall i | 0 <= i < |es| :: Guarded(es[i], env)
    decreases es
  {
    if es != [] {
      PlainIsOff(es[0], env);
      PlainValueIsGuarded(es[0], env);
      AllAreGuarded(es[1..], env);
    }
  }

  lemma {:induction false} ElementsAreGuarded(id: nat, elem: Ty, es: seq<Expr>, env: Env)
    requires Conforms(env) && forall i | 0 <= i < |es| :: Accepted(es[i], env)
    requires EvalElements(id, elem, es, env, QUIET).res.Ok?
    ensures forall i | 0 <= i < |es| :: Guarded(es[i], env) && Check(es[i], env) == Some(elem)
    decreases es
  {
    if es != [] {
      PlainIsOff(es[0], env);
      PlainValueIsGuarded(es[0], env);
      QuietSound(es[0], env);
      assert EvalElement(id, es[0], env, QUIET) == Out(Ok([Plain(es[0], env).value]), QUIET);
      assert TypeOf(EvalElement(id, es[0], env, QUIET).res.value[0]) == elem;
      ElementsAreGuarded(id, elem, es[1..], env);
    }
  }

  lemma {:induction false} DictIsGuarded(id: nat, ty: Ty, entries: seq<Entry>, env: Env)
    requires Conforms(env) && ParsedLiteral(LDict(entries)) && CheckLiteral(LDict(entries), env).Some?
    requires EvalLiteral(id, ty, LDict(entries), env, QUIET).res.Ok?
    ensures GuardedLiteral(LDict(entries), env)
    decreases entries, 1
  {
    var ts := CheckEntries(entries, env).value;
    forall i | 0 <= i < |entries| ensures AcceptedEntry(entries[i], env) {
      assert CheckEntry(entries[i], env) == Some(ts[i]);
    }
    EntriesAreGuarded(id, ty.elem, entries, env);
    if entries != [] {
      forall i | 0 <= i < |entries| ensures ts[i] == ty.elem && Usable(ts[i].key) && Usable(ts[i].val) {
        CheckUsable(entries[i].key, env);
        CheckUsable(entries[i].val, env);
      }
      EntryTypesAgree(ts);
      assert CheckLiteral(LDict(entries), env).value == TArray(ts[0]);
      assert Usable(ts[0]) by { assert Basic(ts[0].key); }
    }
  }

  predicate AcceptedEntry(entry: Entry, env: Env) {
    Accepted(entry.key, env) && Accepted(entry.val, env)
  }

  lemma {:induction false} EntryIsGuarded(id: nat, entry: Entry, elem: Ty, env: Env)
    requires Conforms(env) && AcceptedEntry(entry, env)
    requires EvalEntry(id, entry, env, QUIET).res.Ok?
    requires forall v | v in EvalEntry(id, entry, env, QUIET).res.value :: IsEntryOf(v, elem)
    ensures EvalEntry(id, entry, env, QUIET).st == QUIET
    ensures Guarded(entry.key, env) && Guarded(entry.val, env)
    ensures CheckEntry(entry, env) == Some(elem) && Basic(elem.key)
    decreases entry
  {
    PlainIsOff(entry.key, env);
    PlainIsOff(entry.val, env);
    PlainValueIsGuarded(entry.key, env);
    PlainValueIsGuarded(entry.val, env);
    QuietSound(entry.key, env);
    QuietSound(entry.val, env);
    var v := VEntry(Plain(entry.key, env).value, Plain(entry.val, env).value);
    assert EvalEntry(id, entry, env, QUIET) == Out(Ok([v]), QUIET);
    assert v in [v];
  }

  lemma {:induction false} EntriesAreGuarded(id: nat, elem: Ty, es: seq<Entry>, env: Env)
    requires Conforms(env) && forall i | 0 <= i < |es| :: AcceptedEntry(es[i], env)
    requires EvalEntries(id, elem, es, env, QUIET).res.Ok?
    ensures forall i | 0 <= i < |es| ::
      Guarded(es[i].key, env) && Guarded(es[i].val, env) && CheckEntry(es[i], env) == Some(elem) && Basic(elem.key)
    decreases es, 0
  {
    if es != [] {
      EntryIsGuarded(id, es[0], elem, env);
      EntriesAreGuarded(id, elem, es[1..], env);
    }
  }

  // ----- the main results -------------------------------------------------------------------------

  /**
   An accepted expression that passes the guard never meets a type fault, however it is fuzzed, nor any
   fault it has no source of; one that does not pass it has no value at all when fuzzing is off.
   */
  lemma AcceptedGoesWrongIffUnguarded(e: Expr, env: Env, fs: set<Fault>)
    requires Conforms(env) && Accepted(e, env) && Tame(e, env, fs)
    ensures Guarded(e, env) ==> forall st: Fuzz :: Sound(Eval(e, env, st).res, Check(e, env).value, fs)
    ensures !Guarded(e, env) ==> Plain(e, env).Fail?
  {
    if Guarded(e, env) {
      forall st: Fuzz ensures Sound(Eval(e, env, st).res, Check(e, env).value, fs) {
        EvalSound(e, env, st, fs);
      }
    } else if Plain(e, env).Ok? {
      PlainValueIsGuarded(e, env);
    }
  }

  /** Where no operator or function has a fault of its own, the guard is exactly what safety takes. */
  lemma TameIsSafeIffGuarded(e: Expr, env: Env)
    requires Conforms(env) && Accepted(e, env) && Tame(e, env, {})
    ensures Guarded(e, env) <==> forall st: Fuzz :: Eval(e, env, st).res.Ok?
    ensures Guarded(e, env) ==> forall st: Fuzz :: HasType(Eval(e, env, st).res.value, Check(e, env).value)
  {
    hide Eval, Guarded, Check, Conforms, Parsed, Tame, WellFormed, TypeOf;
    AcceptedGoesWrongIffUnguarded(e, env, {});
    if Guarded(e, env) {
      forall st: Fuzz ensures Eval(e, env, st).res.Ok? && HasType(Eval(e, env, st).res.value, Check(e, env).value) {
        EvalSound(e, env, st, {});
      }
    } else {
      var quiet: Fuzz := QUIET;
      assert !Eval(e, env, quiet).res.Ok?;
    }
  }

  /**
   The same holds of dictSet() where neither the expression nor a variable is a source of repeated keys, as
   far as only the nodes in hot are fuzzed.
   */
  lemma RepeatFreeIsSafeIffGuarded(e: Expr, env: Env, hot: set<nat>)
    requires Conforms(env) && UniqueEnv(env) && Accepted(e, env)
    requires Tame(e, env, {DuplicateKey}) && RepeatFree(e, env, hot)
    ensures Guarded(e, env) <==> forall st: Fuzz | HotOnly(st, hot) :: Eval(e, env, st).res.Ok?
  {
    hide Eval, Guarded, Check, Conforms, Parsed, Tame, WellFormed, TypeOf, RepeatFree, UniqueEnv;
    AcceptedGoesWrongIffUnguarded(e, env, {DuplicateKey});
    if Guarded(e, env) {
      forall st: Fuzz | HotOnly(st, hot) ensures Eval(e, env, st).res.Ok? {
        EvalUnique(e, env, st, hot);
      }
    } else {
      var quiet: Fuzz := QUIET;
      assert HotOnly(quiet, hot) && !Eval(e, env, quiet).res.Ok?;
    }
  }

  const NO_VARIABLES: Env := Env(map[], map[])

  function Text(s: string): Expr {
    Data(0, None, LString(s))
  }

  /** The missing `break`: adding two strings is accepted, and then goes wrong. */
  lemma StringAdditionIsAccepted(s: string, t: string)
    ensures var e := Binary(Arith(Plus), Text(s), Text(t));
      && Accepted(e, NO_VARIABLES) && !Guarded(e, NO_VARIABLES)
      && Plain(e, NO_VARIABLES) == Fail(TypeFault)
  {
    var e := Binary(Arith(Plus), Text(s), Text(t));
    TextValue(s);
    TextValue(t);
  }

  lemma TextValue(s: string)
    ensures Parsed(Text(s)) && Check(Text(s), NO_VARIABLES) == Some(TString)
    ensures Eval(Text(s), NO_VARIABLES, QUIET) == Out(Ok(VString(s)), QUIET)
  {
    assert CheckLiteral(LString(s), NO_VARIABLES) == Some(TString);
  }

  lemma CheckPair(e0: Expr, e1: Expr, t0: Ty, t1: Ty, env: Env)
    requires Check(e0, env) == Some(t0) && Check(e1, env) == Some(t1)
    ensures CheckAll([e0, e1], env) == Some([t0, t1])
  {
    assert CheckAll([], env) == Some([]);
    CheckCons(e1, [], t1, [], env);
    assert [e1] + [] == [e1] && [t1] + [] == [t1];
    CheckCons(e0, [e1], t0, [t1], env);
    assert [e0] + [e1] == [e0, e1] && [t0] + [t1] == [t0, t1];
  }

  lemma CheckCons(e: Expr, es: seq<Expr>, t: Ty, ts: seq<Ty>, env: Env)
    requires Check(e, env) == Some(t) && CheckAll(es, env) == Some(ts)
    ensures CheckAll([e] + es, env) == Some([t] + ts)
  {
    assert ([e] + es)[1..] == es;
  }

  function MixedItems(s: string, b: bool): seq<Expr> {
    [Text(s), Truth(b)]
  }

  function Truth(b: bool): Expr {
    Data(2, None, LBool(b))
  }

  lemma TruthValue(b: bool)
    ensures Parsed(Truth(b)) && Check(Truth(b), NO_VARIABLES) == Some(TBool)
  {
    assert CheckLiteral(LBool(b), NO_VARIABLES) == Some(TBool);
  }

  lemma MixedItemsCheck(s: string, b: bool)
    ensures ParsedLiteral(LArray(MixedItems(s, b)))
    ensures CheckLiteral(LArray(MixedItems(s, b)), NO_VARIABLES) == Some(TArray(TAny))
  {
    var items := MixedItems(s, b);
    TextValue(s);
    TruthValue(b);
    CheckPair(items[0], items[1], TString, TBool, NO_VARIABLES);
    var ts := [TString, TBool];
    assert ts[1] != ts[0];
    LeastGeneralDefinite(None, ts, TAny);
  }

  /** The loose annotation: a mixed array with any array annotation is accepted, and then goes wrong. */
  lemma MixedArrayIsAccepted(s: string, b: bool)
    ensures var e := Data(1, Some(TArray(TString)), LArray(MixedItems(s, b)));
      && Accepted(e, NO_VARIABLES) && !Guarded(e, NO_VARIABLES) && Plain(e, NO_VARIABLES).Fail?
  {
    hide CheckLiteral, ParsedLiteral, Eval;
    var e := Data(1, Some(TArray(TString)), LArray(MixedItems(s, b)));
    MixedItemsCheck(s, b);
    assert Definite(TArray(TString)) && Subtype(TArray(TString), TArray(TAny));
    assert Accepted(e, NO_VARIABLES);
    assert !DefiniteLiteral(e.lit, NO_VARIABLES);
    AlwaysTame(e, NO_VARIABLES);
    AcceptedGoesWrongIffUnguarded(e, NO_VARIABLES, UNTYPABLE);
  }
}
