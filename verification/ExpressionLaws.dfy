/**
 Laws of expressions: what the operators and builtin functions of the language compute, said by expressions
 that have one value. They hold of all operands that have values, without fuzzing.
 */
module ExpressionLaws {
  import opened Results
  import opened VariantTypes
  import opened SaturatingArithmetic
  import opened Language
  import opened Evaluator
  import opened EffectFree
  import opened TypeSoundness
  import opened Comparisons
  import opened Exactness

  // ----- booleans ---------------------------------------------------------------------------------

  predicate Truthful(e: Expr, env: Env) {
    Plain(e, env).Ok? && Plain(e, env).value.VBool?
  }

  lemma PlainBinary(op: BinOp, l: Expr, r: Expr, env: Env)
    requires Plain(l, env).Ok? && Plain(r, env).Ok?
    ensures Plain(Binary(op, l, r), env) == ApplyBinary(op, Plain(l, env).value, Plain(r, env).value)
  {
    hide ApplyBinary;
    PlainIsOff(l, env);
    PlainIsOff(r, env);
  }

  /** A condition and its negation: never both, and always one. */
  lemma ExcludedMiddle(e: Expr, env: Env)
    requires Truthful(e, env)
    ensures Plain(Binary(And, e, Not(e)), env) == Ok(VBool(false))
    ensures Plain(Binary(Or, e, Not(e)), env) == Ok(VBool(true))
    ensures Plain(Not(Not(e)), env) == Plain(e, env)
  {
    PlainBinary(And, e, Not(e), env);
    PlainBinary(Or, e, Not(e), env);
  }

  /** Negation turns the one operator into the other. */
  lemma DeMorganOf(l: Expr, r: Expr, env: Env)
    requires Truthful(l, env) && Truthful(r, env)
    ensures Plain(Not(Binary(And, l, r)), env) == Plain(Binary(Or, Not(l), Not(r)), env)
    ensures Plain(Not(Binary(Or, l, r)), env) == Plain(Binary(And, Not(l), Not(r)), env)
  {
    PlainBinary(And, l, r, env);
    PlainBinary(Or, l, r, env);
    PlainBinary(Or, Not(l), Not(r), env);
    PlainBinary(And, Not(l), Not(r), env);
  }

  /** true and false are the units of the operators. */
  lemma Units(e: Expr, id: nat, env: Env)
    requires Truthful(e, env)
    ensures Plain(Binary(And, Data(id, None, LBool(true)), e), env) == Plain(e, env)
    ensures Plain(Binary(Or, Data(id, None, LBool(false)), e), env) == Plain(e, env)
    ensures Plain(Binary(And, e, Data(id, None, LBool(true))), env) == Plain(e, env)
    ensures Plain(Binary(Or, e, Data(id, None, LBool(false))), env) == Plain(e, env)
  {
    TruthPlain(id, true, env);
    TruthPlain(id, false, env);
    var yes, no := Data(id, None, LBool(true)), Data(id, None, LBool(false));
    PlainBinary(And, yes, e, env);
    PlainBinary(Or, no, e, env);
    PlainBinary(And, e, yes, env);
    PlainBinary(Or, e, no, env);
  }

  lemma LiteralPlain(id: nat, lit: Literal, t: Ty, v: Value, env: Env)
    requires CheckLiteral(lit, env) == Some(t) && Definite(t)
    requires EvalLiteral(id, t, lit, env, QUIET).res == Ok(v)
    ensures Check(Data(id, None, lit), env) == Some(t) && Plain(Data(id, None, lit), env) == Ok(v)
  {
    hide EvalLiteral, CheckLiteral;
  }

  lemma TruthPlain(id: nat, b: bool, env: Env)
    ensures Plain(Data(id, None, LBool(b)), env) == Ok(VBool(b))
  {
    LiteralPlain(id, LBool(b), TBool, VBool(b), env);
  }

  // ----- comparisons ------------------------------------------------------------------------------

  /** Two expressions are equal just when they have one value, and then neither is different. */
  lemma Equality(l: Expr, r: Expr, env: Env)
    requires Plain(l, env).Ok? && Plain(r, env).Ok?
    ensures Plain(Binary(Eq, l, r), env) == Ok(VBool(true)) <==> Plain(l, env) == Plain(r, env)
    ensures Plain(Binary(Neq, l, r), env) == Plain(Not(Binary(Eq, l, r)), env)
    ensures Truthful(Binary(Eq, l, r), env)
  {
    PlainBinary(Eq, l, r, env);
    PlainBinary(Neq, l, r, env);
  }

  predicate Comparable(l: Expr, r: Expr, env: Env) {
    && Plain(l, env).Ok? && Plain(r, env).Ok?
    && Basic(TypeOf(Plain(l, env).value)) && TypeOf(Plain(l, env).value) == TypeOf(Plain(r, env).value)
  }

  /** The other comparisons in terms of `<`, and `<` against itself. */
  lemma Orderings(l: Expr, r: Expr, env: Env)
    requires Comparable(l, r, env)
    ensures Truthful(Binary(Lt, l, r), env)
    ensures Plain(Binary(Gt, l, r), env) == Plain(Binary(Lt, r, l), env)
    ensures Plain(Binary(Gte, l, r), env) == Plain(Not(Binary(Lt, l, r)), env)
    ensures Plain(Binary(Lte, l, r), env) == Plain(Binary(Or, Binary(Lt, l, r), Binary(Eq, l, r)), env)
    ensures Plain(Binary(Lt, l, r), env) == Ok(VBool(true)) ==> Plain(Binary(Lt, r, l), env) == Ok(VBool(false))
  {
    hide Less, TypeOf, ApplyBinary;
    var x, y := Plain(l, env).value, Plain(r, env).value;
    LessTrichotomy(x, y);
    OrderingResults(x, y);
    OrderingResults(y, x);
    PlainBinary(Lt, l, r, env);
    PlainBinary(Lt, r, l, env);
    PlainBinary(Gt, l, r, env);
    PlainBinary(Gte, l, r, env);
    PlainBinary(Lte, l, r, env);
    PlainBinary(Eq, l, r, env);
    PlainBinary(Or, Binary(Lt, l, r), Binary(Eq, l, r), env);
    EitherIs(Less(x, y), x == y);
  }

  lemma EitherIs(b: bool, c: bool)
    ensures ApplyBinary(Or, VBool(b), VBool(c)) == Ok(VBool(b || c))
  {
  }

  /** The text by which two values are compared, if they are: a string, or a path or type string taken as one. */
  function Text(v: Value): Option<string> {
    match v
    case VString(s) => Some(s)
    case VPath(s) => Some(s)
    case VSignature(t) => Some(Spell(t))
    case _ => None
  }

  /** Of two texts of one type that is less which comes first in a dictionary. */
  lemma TextOrder(l: Expr, r: Expr, env: Env)
    requires Comparable(l, r, env) && Text(Plain(l, env).value).Some? && Text(Plain(r, env).value).Some?
    ensures Plain(Binary(Lt, l, r), env) ==
      Ok(VBool(Precedes(Text(Plain(l, env).value).value, Text(Plain(r, env).value).value)))
  {
    hide StringLess, Precedes, Spell;
    PlainBinary(Lt, l, r, env);
    StringOrder(Text(Plain(l, env).value).value, Text(Plain(r, env).value).value);
  }

  /** Of two truth values the one is less just when it is false and the other is not. */
  lemma TruthOrder(l: Expr, r: Expr, env: Env)
    requires Truthful(l, env) && Truthful(r, env)
    ensures Plain(Binary(Lt, l, r), env) == Plain(Binary(And, Not(l), r), env)
  {
    PlainBinary(Lt, l, r, env);
    PlainBinary(And, Not(l), r, env);
  }

  // ----- arithmetic -------------------------------------------------------------------------------

  predicate Number(e: Expr, env: Env, k: IntKind, n: int) {
    Plain(e, env) == Ok(VInt(k, n)) && InRange(k, n)
  }

  function Numeral(id: nat, k: IntKind, n: int): Expr {
    Data(id, None, LInt(k, n))
  }

  lemma NumeralPlain(id: nat, k: IntKind, n: int, env: Env)
    ensures Plain(Numeral(id, k, n), env) == Ok(VInt(k, n))
  {
    LiteralPlain(id, LInt(k, n), TInt(k), VInt(k, n), env);
  }

  /** A number is less than its successor, except the largest of its type, which has none: `+` saturates. */
  lemma SuccessorIsGreater(e: Expr, id: nat, k: IntKind, n: int, env: Env)
    requires Number(e, env, k, n)
    ensures var next := Binary(Arith(Plus), e, Numeral(id, k, 1));
      && Plain(next, env).Ok?
      && Plain(Binary(Lt, e, next), env) == Ok(VBool(n != MaxOf(k)))
      && Plain(Binary(Eq, e, next), env) == Ok(VBool(n == MaxOf(k)))
  {
    var one := Numeral(id, k, 1);
    var next := Binary(Arith(Plus), e, one);
    NumeralPlain(id, k, 1, env);
    PlusSaturates(k, n, 1);
    PlainBinary(Arith(Plus), e, one, env);
    PlainBinary(Lt, e, next, env);
    PlainBinary(Eq, e, next, env);
  }

  /** What is added can be taken away again, as long as the sum does not saturate. */
  lemma MinusUndoesPlus(l: Expr, r: Expr, k: IntKind, m: int, n: int, env: Env)
    requires Number(l, env, k, m) && Number(r, env, k, n)
    ensures Plain(Binary(Arith(Minus), Binary(Arith(Plus), l, r), r), env) == Plain(l, env) <==> InRange(k, m + n)
  {
    var sum := Binary(Arith(Plus), l, r);
    PlusSaturates(k, m, n);
    PlainBinary(Arith(Plus), l, r, env);
    MinusSaturates(k, Clamp(k, m + n), n);
    PlainBinary(Arith(Minus), sum, r, env);
  }

  /** The documented law, as an expression of the language, with the exact operands of which it holds. */
  lemma DivisionLaw(l: Expr, r: Expr, k: IntKind, m: int, n: int, env: Env)
    requires Number(l, env, k, m) && Number(r, env, k, n)
    ensures var product := Binary(Arith(Times), Binary(Arith(Divide), l, r), r);
      var law := Binary(Eq, l, Binary(Arith(Plus), product, Binary(Arith(Modulus), l, r)));
      Plain(law, env) == Ok(VBool(true)) <==>
        && (m == 0 || (n != 0 && !(Signed(k) && m == MinOf(k) && n == -1)))
        && !AbsOverflows(Modulus, k, m, n)
  {
    hide Calc, ApplyBinary, AbsOverflows, InRange;
    var quotient, remainder := Binary(Arith(Divide), l, r), Binary(Arith(Modulus), l, r);
    var product := Binary(Arith(Times), quotient, r);
    var sum := Binary(Arith(Plus), product, remainder);
    QuotientAndRemainderRecompose(k, m, n);
    RecomposedPlain(l, r, k, m, n, env);
    LawHolds(l, sum, env);
  }

  lemma LawHolds(l: Expr, r: Expr, env: Env)
    requires Plain(l, env).Ok?
    ensures Plain(Binary(Eq, l, r), env) == Ok(VBool(true)) <==> Plain(r, env) == Plain(l, env)
  {
    PlainIsOff(l, env);
    PlainIsOff(r, env);
  }

  lemma RecomposedPlain(l: Expr, r: Expr, k: IntKind, m: int, n: int, env: Env)
    requires Number(l, env, k, m) && Number(r, env, k, n)
    ensures var product := Binary(Arith(Times), Binary(Arith(Divide), l, r), r);
      var sum := Binary(Arith(Plus), product, Binary(Arith(Modulus), l, r));
      Plain(sum, env) ==
        if Recompose(k, m, n).Some? then Ok(VInt(k, Recompose(k, m, n).value)) else Fail(SignedOverflow)
  {
    hide Calc, ApplyBinary, AbsOverflows, InRange;
    var quotient, remainder := Binary(Arith(Divide), l, r), Binary(Arith(Modulus), l, r);
    var product := Binary(Arith(Times), quotient, r);
    var sum := Binary(Arith(Plus), product, remainder);
    CalcPlain(Divide, l, r, k, m, n, env);
    CalcPlain(Modulus, l, r, k, m, n, env);
    PlainFails(Times, quotient, r, env);
    PlainFails(Plus, product, remainder, env);
    if Plain(quotient, env).Ok? {
      CalcPlain(Times, quotient, r, k, Plain(quotient, env).value.n, n, env);
      if Plain(product, env).Ok? && Plain(remainder, env).Ok? {
        CalcPlain(Plus, product, remainder, k, Plain(product, env).value.n, Plain(remainder, env).value.n, env);
      }
    }
  }

  lemma PlainFails(a: ArithOp, l: Expr, r: Expr, env: Env)
    ensures Plain(l, env).Fail? ==> Plain(Binary(Arith(a), l, r), env) == Plain(l, env)
    ensures Plain(l, env).Ok? && Plain(r, env).Fail? ==> Plain(Binary(Arith(a), l, r), env) == Plain(r, env)
  {
    PlainIsOff(l, env);
    PlainIsOff(r, env);
  }

  lemma CalcPlain(a: ArithOp, l: Expr, r: Expr, k: IntKind, m: int, n: int, env: Env)
    requires Number(l, env, k, m) && Number(r, env, k, n)
    ensures var e := Binary(Arith(a), l, r);
      if AbsOverflows(a, k, m, n) then Plain(e, env) == Fail(SignedOverflow) && Calc(a, k, m, n).None?
      else Calc(a, k, m, n).Some? && Number(e, env, k, Calc(a, k, m, n).value)
  {
    hide Calc;
    CalcInRange(a, k, m, n);
    PlainBinary(Arith(a), l, r, env);
  }

  predicate RealNumber(e: Expr, env: Env, x: real) {
    Plain(e, env) == Ok(VDouble(x))
  }

  lemma RealPlain(a: ArithOp, l: Expr, r: Expr, x: real, y: real, env: Env)
    requires RealNumber(l, env, x) && RealNumber(r, env, y)
    ensures RealNumber(Binary(Arith(a), l, r), env, RealCalc(a, x, y))
  {
    hide RealCalc;
    PlainBinary(Arith(a), l, r, env);
  }

  /** On doubles `-` undoes `+` and `/` undoes `*`, and a sum is greater just when something positive is added. */
  lemma RealLaws(l: Expr, r: Expr, x: real, y: real, env: Env)
    requires RealNumber(l, env, x) && RealNumber(r, env, y)
    ensures Plain(Binary(Arith(Minus), Binary(Arith(Plus), l, r), r), env) == Plain(l, env)
    ensures y != 0.0 ==> Plain(Binary(Arith(Divide), Binary(Arith(Times), l, r), r), env) == Plain(l, env)
    ensures y == 0.0 ==> Plain(Binary(Arith(Divide), l, r), env) == Ok(VDouble(0.0))
    ensures Plain(Binary(Lt, l, Binary(Arith(Plus), l, r)), env) == Ok(VBool(y > 0.0))
  {
    hide RealCalc;
    var sum, product := Binary(Arith(Plus), l, r), Binary(Arith(Times), l, r);
    var s, p := RealCalc(Plus, x, y), RealCalc(Times, x, y);
    RealPlain(Plus, l, r, x, y, env);
    RealPlain(Minus, sum, r, s, y, env);
    RealPlain(Times, l, r, x, y, env);
    RealPlain(Divide, product, r, p, y, env);
    RealPlain(Divide, l, r, x, y, env);
    PlainBinary(Lt, l, sum, env);
    SumsAndProducts(x, y);
  }

  lemma SumsAndProducts(x: real, y: real)
    ensures var s, p := RealCalc(Plus, x, y), RealCalc(Times, x, y);
      && RealCalc(Minus, s, y) == x && (x < s <==> y > 0.0)
      && RealCalc(Divide, p, y) == (if y == 0.0 then 0.0 else x)
    ensures RealCalc(Divide, x, 0.0) == 0.0
  {
    hide TruncReal;
    if y != 0.0 { Cancel(x, y, x * y / y); }
  }

  lemma Cancel(x: real, y: real, q: real)
    requires y != 0.0 && q == x * y / y
    ensures q == x
  {
    assert q * y == x * y;
    assert (q - x) * y == 0.0;
  }

  /** `%` on doubles is `%` on the whole numbers they truncate to. */
  lemma RealModulus(l: Expr, r: Expr, m: Expr, n: Expr, x: real, y: real, env: Env)
    requires RealNumber(l, env, x) && RealNumber(r, env, y)
    requires Number(m, env, Int64, TruncReal(x)) && Number(n, env, Int64, TruncReal(y))
    requires Plain(Binary(Arith(Modulus), m, n), env).Ok?
    ensures Plain(Binary(Arith(Modulus), l, r), env) ==
      Ok(VDouble(Plain(Binary(Arith(Modulus), m, n), env).value.n as real))
  {
    hide RealCalc, TruncReal, Calc;
    var a, b := TruncReal(x), TruncReal(y);
    RealPlain(Modulus, l, r, x, y, env);
    CalcPlain(Modulus, m, n, Int64, a, b, env);
    RealRemainder(x, y);
  }

  lemma RealRemainder(x: real, y: real)
    requires InRange(Int64, TruncReal(x)) && InRange(Int64, TruncReal(y))
    ensures var r := Calc(Modulus, Int64, TruncReal(x), TruncReal(y));
      r.Some? ==> RealCalc(Modulus, x, y) == r.value as real
  {
    hide TruncReal, Calc;
    ModulusFollowsDividend(Int64, TruncReal(x), TruncReal(y));
    SignTimes(Abs(TruncReal(x)) % if TruncReal(y) != 0 then Abs(TruncReal(y)) else 1);
  }

  lemma SignTimes(a: int)
    ensures 1 * a == a && -1 * a == -a
  {
  }

  // ----- calls ------------------------------------------------------------------------------------

  /** A call of a builtin function with several parameters. */
  function Apply(fn: Function, id: nat, es: seq<Expr>): Expr {
    Call(fn, Data(id, None, LStruct(es)))
  }

  predicate AllPlain(es: seq<Expr>, env: Env) {
    forall i | 0 <= i < |es| :: Plain(es[i], env).Ok?
  }

  function Values(es: seq<Expr>, env: Env): (vs: seq<Value>)
    requires AllPlain(es, env)
    ensures |vs| == |es| && forall i | 0 <= i < |es| :: Plain(es[i], env) == Ok(vs[i])
  {
    seq(|es|, i requires 0 <= i < |es| => Plain(es[i], env).value)
  }

  lemma {:induction false} AllPlainOk(es: seq<Expr>, env: Env)
    requires AllPlain(es, env)
    ensures EvalAll(es, env, QUIET) == Out(Ok(Values(es, env)), QUIET)
    decreases |es|
  {
    hide Eval;
    if es != [] {
      PlainIsOff(es[0], env);
      AllPlainOk(es[1..], env);
      assert Values(es, env) == [Values(es, env)[0]] + Values(es[1..], env);
    }
  }

  /** What an accepted call is applied to: the values of its parameters, which have the types of its check. */
  lemma Applied(fn: Function, id: nat, es: seq<Expr>, env: Env) returns (ts: seq<Ty>)
    requires Conforms(env) && Ready(Apply(fn, id, es), env) && !fn.FPairKeys? && AllPlain(es, env)
    ensures |ts| == |es| && Usable(TTuple(ts)) && FunctionType(fn, TTuple(ts)) == Check(Apply(fn, id, es), env)
    ensures forall i | 0 <= i < |es| :: Ready(es[i], env) && Check(es[i], env) == Some(ts[i])
    ensures var vs := Values(es, env);
      && (forall i | 0 <= i < |es| :: HasType(vs[i], ts[i]))
      && Plain(Apply(fn, id, es), env) == ApplyFunction(fn, FunctionType(fn, TTuple(ts)).value, VTuple(vs))
  {
    hide FunctionType, ApplyFunction, WellFormed, TypeOf, Conforms;
    var p := Data(id, None, LStruct(es));
    assert Ready(p, env);
    ts := StructReady(id, es, env);
    forall i | 0 <= i < |es| ensures HasType(Values(es, env)[i], ts[i]) { QuietSound(es[i], env); }
    ConformingTypes(env);
    CheckUsable(p, env);
    StructPlain(id, es, env);
    PlainIsOff(p, env);
  }

  lemma StructReady(id: nat, es: seq<Expr>, env: Env) returns (ts: seq<Ty>)
    requires Ready(Data(id, None, LStruct(es)), env)
    ensures |ts| == |es| && Check(Data(id, None, LStruct(es)), env) == Some(TTuple(ts))
    ensures forall i | 0 <= i < |es| :: Ready(es[i], env) && Check(es[i], env) == Some(ts[i])
  {
    assert CheckLiteral(LStruct(es), env).Some? && ParsedLiteral(LStruct(es)) && GuardedLiteral(LStruct(es), env);
    ts := CheckAll(es, env).value;
  }

  /** A struct has the values of its items. */
  lemma StructPlain(id: nat, es: seq<Expr>, env: Env)
    requires Check(Data(id, None, LStruct(es)), env).Some? && AllPlain(es, env)
    ensures Plain(Data(id, None, LStruct(es)), env) == Ok(VTuple(Values(es, env)))
  {
    hide Check, EvalAll, Values;
    AllPlainOk(es, env);
    assert EvalLiteral(id, Check(Data(id, None, LStruct(es)), env).value, LStruct(es), env, QUIET).res
      == Ok(VTuple(Values(es, env)));
  }
}
