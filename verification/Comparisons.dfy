/**
 The comparison operators: on values of one basic type they agree with one strict total order, which on
 numbers is the usual one.
 */
module Comparisons {
  import opened Results
  import opened VariantTypes
  import opened Language
  import opened Evaluator

  // ----- strings ----------------------------------------------------------------------------------

  lemma {:induction false} StringTrichotomy(a: string, b: string)
    ensures StringLess(a, b) ==> a != b && !StringLess(b, a)
    ensures a != b ==> StringLess(a, b) || StringLess(b, a)
    decreases |a|
  {
    if a != "" && b != "" {
      StringTrichotomy(a[1..], b[1..]);
      assert a == [a[0]] + a[1..] && b == [b[0]] + b[1..];
    }
  }

  lemma {:induction false} StringTransitive(a: string, b: string, c: string)
    requires StringLess(a, b) && StringLess(b, c)
    ensures StringLess(a, c)
    decreases |a|
  {
    if a != "" && a[0] == b[0] == c[0] { StringTransitive(a[1..], b[1..], c[1..]); }
  }

  /** The strings agree up to some place, where the one ends or has the smaller character. */
  predicate Precedes(a: string, b: string) {
    exists i: nat | i <= |a| :: FirstDifference(a, b, i)
  }

  predicate FirstDifference(a: string, b: string, i: nat) {
    i <= |a| && i < |b| && a[..i] == b[..i] && (i == |a| || a[i] < b[i])
  }

  /** Strings are in the order of dictionaries. */
  lemma {:induction false} StringOrder(a: string, b: string)
    ensures StringLess(a, b) <==> Precedes(a, b)
    decreases |a|
  {
    if a == "" || b == "" || a[0] != b[0] {
      if StringLess(a, b) { assert FirstDifference(a, b, 0); }
      if i: nat :| FirstDifference(a, b, i) {
        if i > 0 { SameHead(a, b, i); }
      }
    } else {
      StringOrder(a[1..], b[1..]);
      if i: nat :| FirstDifference(a[1..], b[1..], i) {
        assert a[..i + 1] == [a[0]] + a[1..][..i] && b[..i + 1] == [b[0]] + b[1..][..i];
        assert FirstDifference(a, b, i + 1);
      }
      if i: nat :| FirstDifference(a, b, i) {
        assert i > 0 && a[1..][..i - 1] == a[..i][1..] && b[1..][..i - 1] == b[..i][1..];
        assert FirstDifference(a[1..], b[1..], i - 1);
      }
    }
  }

  lemma SameHead(a: string, b: string, i: nat)
    requires FirstDifference(a, b, i) && i > 0
    ensures a != "" && a[0] == b[0]
  {
    assert a[..i][0] == b[..i][0];
  }

  // ----- type strings -----------------------------------------------------------------------------

  /** The first character of a type string, which settles what kind of type it is. */
  function Lead(t: Ty): char {
    match t
    case TBool => 'b'
    case TInt(k) =>
      (match k case Byte => 'y' case Int16 => 'n' case UInt16 => 'q' case Int32 => 'i'
               case UInt32 => 'u' case Int64 => 'x' case UInt64 => 't')
    case TDouble => 'd'
    case TString => 's'
    case TPath => 'o'
    case TSignature => 'g'
    case TVariant => 'v'
    case TArray(_) => 'a'
    case TMaybe(_) => 'm'
    case TTuple(_) => '('
    case TEntry(_, _) => '{'
    case TAny => '*'
    case TBasic => '?'
    case TAnyTuple => 'r'
  }

  lemma SpellLeads(t: Ty)
    ensures Spell(t) != "" && Spell(t)[0] == Lead(t) && Lead(t) != ')'
  {
  }

  /** Type strings can be read in only one way, whatever follows them. */
  lemma {:induction false} SpellUnique(t: Ty, u: Ty, x: string, y: string)
    requires Spell(t) + x == Spell(u) + y
    ensures t == u && x == y
    decreases t
  {
    SpellLeads(t);
    SpellLeads(u);
    assert Lead(t) == (Spell(t) + x)[0] == (Spell(u) + y)[0] == Lead(u);
    match t
    case TArray(e) => SpellTail(t, u, "a", Spell(e), Spell(u.elem), x, y); SpellUnique(e, u.elem, x, y);
    case TMaybe(e) => SpellTail(t, u, "m", Spell(e), Spell(u.elem), x, y); SpellUnique(e, u.elem, x, y);
    case TTuple(ts) =>
      TupleTail(ts, x);
      TupleTail(u.items, y);
      Strip("(", SpellAll(ts) + (")" + x), SpellAll(u.items) + (")" + y));
      SpellAllUnique(ts, u.items, x, y);
    case TEntry(k, v) =>
      EntryTail(k, v, x);
      EntryTail(u.key, u.val, y);
      Strip("{", Spell(k) + (Spell(v) + ("}" + x)), Spell(u.key) + (Spell(u.val) + ("}" + y)));
      SpellUnique(k, u.key, Spell(v) + ("}" + x), Spell(u.val) + ("}" + y));
      SpellUnique(v, u.val, "}" + x, "}" + y);
      Strip("}", x, y);
    case _ => Strip(Spell(t), x, y);
  }

  lemma Strip(p: string, x: string, y: string)
    requires p + x == p + y
    ensures x == y
  {
    assert x == (p + x)[|p|..] && y == (p + y)[|p|..];
  }

  lemma TupleTail(ts: seq<Ty>, x: string)
    ensures Spell(TTuple(ts)) + x == "(" + (SpellAll(ts) + (")" + x))
  {
  }

  lemma EntryTail(k: Ty, v: Ty, x: string)
    ensures Spell(TEntry(k, v)) + x == "{" + (Spell(k) + (Spell(v) + ("}" + x)))
  {
  }

  lemma SpellTail(t: Ty, u: Ty, p: string, a: string, b: string, x: string, y: string)
    requires Spell(t) == p + a && Spell(u) == p + b && Spell(t) + x == Spell(u) + y
    ensures a + x == b + y
  {
    hide Spell;
    assert Spell(t) + x == p + (a + x) && Spell(u) + y == p + (b + y);
    Strip(p, a + x, b + y);
  }

  lemma {:induction false} SpellAllUnique(ts: seq<Ty>, us: seq<Ty>, x: string, y: string)
    requires SpellAll(ts) + (")" + x) == SpellAll(us) + (")" + y)
    ensures ts == us && x == y
    decreases ts
  {
    if ts == [] || us == [] {
      FirstOfAll(ts, x);
      FirstOfAll(us, y);
      if ts == [] && us == [] {
        assert "" + (")" + x) == ")" + x && "" + (")" + y) == ")" + y;
        Strip(")", x, y);
      }
    } else {
      var x', y' := SpellAll(ts[1..]) + (")" + x), SpellAll(us[1..]) + (")" + y);
      assert SpellAll(ts) + (")" + x) == Spell(ts[0]) + x' && SpellAll(us) + (")" + y) == Spell(us[0]) + y';
      SpellUnique(ts[0], us[0], x', y');
      SpellAllUnique(ts[1..], us[1..], x, y);
      assert ts == [ts[0]] + ts[1..] && us == [us[0]] + us[1..];
    }
  }

  lemma FirstOfAll(ts: seq<Ty>, x: string)
    ensures var s := SpellAll(ts) + (")" + x); s != "" && (s[0] == ')' <==> ts == [])
  {
    if ts != [] {
      SpellLeads(ts[0]);
      assert SpellAll(ts)[0] == Spell(ts[0])[0];
    }
  }

  lemma SpellInjective(t: Ty, u: Ty)
    ensures Spell(t) == Spell(u) ==> t == u
  {
    if Spell(t) == Spell(u) { SpellUnique(t, u, "", ""); }
  }

  // ----- values -----------------------------------------------------------------------------------

  /** Of two values of one basic type, exactly one is less, unless they are equal. */
  lemma LessTrichotomy(l: Value, r: Value)
    requires Basic(TypeOf(l)) && TypeOf(l) == TypeOf(r)
    ensures Less(l, r) ==> l != r && !Less(r, l)
    ensures l != r ==> Less(l, r) || Less(r, l)
  {
    match (l, r)
    case (VString(a), VString(b)) => StringTrichotomy(a, b);
    case (VPath(a), VPath(b)) => StringTrichotomy(a, b);
    case (VSignature(a), VSignature(b)) => StringTrichotomy(Spell(a), Spell(b)); SpellInjective(a, b);
    case _ =>
  }

  lemma LessTransitive(a: Value, b: Value, c: Value)
    requires Less(a, b) && Less(b, c) && TypeOf(a) == TypeOf(b) == TypeOf(c)
    ensures Less(a, c)
  {
    match (a, b, c)
    case (VString(x), VString(y), VString(z)) => StringTransitive(x, y, z);
    case (VPath(x), VPath(y), VPath(z)) => StringTransitive(x, y, z);
    case (VSignature(x), VSignature(y), VSignature(z)) => StringTransitive(Spell(x), Spell(y), Spell(z));
    case _ =>
  }

  /** Whether an operator holds of two values. */
  predicate HoldsOf(op: BinOp, l: Value, r: Value) {
    ApplyBinary(op, l, r) == Ok(VBool(true))
  }

  predicate FailsOf(op: BinOp, l: Value, r: Value) {
    ApplyBinary(op, l, r) == Ok(VBool(false))
  }

  lemma OrderingResults(l: Value, r: Value)
    requires Basic(TypeOf(l)) && TypeOf(l) == TypeOf(r)
    ensures ApplyBinary(Lt, l, r) == Ok(VBool(Less(l, r))) && ApplyBinary(Gte, l, r) == Ok(VBool(!Less(l, r)))
    ensures ApplyBinary(Gt, l, r) == Ok(VBool(Less(r, l))) && ApplyBinary(Lte, l, r) == Ok(VBool(!Less(r, l)))
    ensures ApplyBinary(Eq, l, r) == Ok(VBool(l == r)) && ApplyBinary(Neq, l, r) == Ok(VBool(l != r))
  {
    hide Less;
  }

  /** The six comparisons are those of one total order, and each has the opposite it should have. */
  lemma ComparisonsAgree(l: Value, r: Value)
    requires Basic(TypeOf(l)) && TypeOf(l) == TypeOf(r)
    ensures HoldsOf(Lt, l, r) <==> FailsOf(Gte, l, r)
    ensures HoldsOf(Gt, l, r) <==> FailsOf(Lte, l, r)
    ensures HoldsOf(Eq, l, r) <==> FailsOf(Neq, l, r)
    ensures HoldsOf(Lte, l, r) <==> HoldsOf(Lt, l, r) || HoldsOf(Eq, l, r)
    ensures HoldsOf(Gte, l, r) <==> HoldsOf(Gt, l, r) || HoldsOf(Eq, l, r)
    ensures HoldsOf(Lt, l, r) <==> HoldsOf(Gt, r, l)
    ensures !(HoldsOf(Lt, l, r) && HoldsOf(Gt, l, r))
  {
    hide Less, TypeOf, ApplyBinary;
    LessTrichotomy(l, r);
    OrderingResults(l, r);
    OrderingResults(r, l);
  }

  /** Conjunction and disjunction are duals under negation. */
  lemma DeMorgan(b: bool, c: bool)
    ensures HoldsOf(And, VBool(b), VBool(c)) <==> FailsOf(Or, VBool(!b), VBool(!c))
    ensures HoldsOf(And, VBool(b), VBool(c)) ==> b && HoldsOf(Or, VBool(b), VBool(c))
    ensures HoldsOf(And, VBool(true), VBool(c)) <==> c
  {
  }
}
