/**
 The arithmetic operators of the language, as the C expressions that compute them.

 Every C operation is carried out in the type C would use: operands narrower than an int are promoted
 to a 32-bit int, 32- and 64-bit signed operands stay as they are, and the wide unsigned types wrap.
 A signed operation that leaves its type has no value (None), since C leaves it undefined.
 */
module SaturatingArithmetic {
  import opened Results
  import opened VariantTypes

  datatype ArithOp = Times | Divide | Modulus | Plus | Minus

  predicate Signed(k: IntKind) {
    k.Int16? || k.Int32? || k.Int64?
  }

  /** The signed types that integer promotion does not widen. */
  predicate WideSigned(k: IntKind) {
    k.Int32? || k.Int64?
  }

  // ----- C operators ------------------------------------------------------------------------------

  /** The value of a C operation on operands of type k whose exact result is n. */
  function Fit(k: IntKind, n: int): Option<int> {
    match k
    case UInt32 => Some(n % 0x1_0000_0000)
    case UInt64 => Some(n % 0x1_0000_0000_0000_0000)
    case Int64 => if InRange(Int64, n) then Some(n) else None
    case _ => if InRange(Int32, n) then Some(n) else None
  }

  function Abs(n: int): (a: nat)
    ensures a == n || a == -n
  {
    if n < 0 then -n else n
  }

  /** C division, which truncates towards zero. */
  function TruncDiv(a: int, b: int): int
    requires b != 0
  {
    if (a < 0) == (b < 0) then Abs(a) / Abs(b) else -(Abs(a) / Abs(b))
  }

  function CAbs(k: IntKind, a: int): Option<int> {
    if a < 0 then Fit(k, -a) else Some(a)
  }

  function CDiv(k: IntKind, a: int, b: int): Option<int> {
    if b == 0 then None else Fit(k, TruncDiv(a, b))
  }

  /** C remainder, which the code only ever applies to operands that are not negative. */
  function CMod(a: int, b: int): Option<int> {
    if b <= 0 || a < 0 then None else Some(a % b)
  }

  // ----- the operators' C expressions -------------------------------------------------------------

  function UnsignedCalc(op: ArithOp, k: IntKind, l: int, r: int): Option<int> {
    var max := MaxOf(k);
    match op
    case Times =>
      if r == 0 then Fit(k, l * r) else
        var limit :- CDiv(k, max, r);
        if l <= limit then Fit(k, l * r) else Some(max)
    case Divide => if r != 0 then CDiv(k, l, r) else if l == 0 then Some(0) else Some(max)
    case Modulus => if r != 0 then CMod(l, r) else Some(0)
    case Plus =>
      var limit :- Fit(k, max - r);
      if l <= limit then Fit(k, l + r) else Some(max)
    case Minus =>
      var limit :- Fit(k, 0 + r);
      if l >= limit then Fit(k, l - r) else Some(0)
  }

  function SignedCalc(op: ArithOp, k: IntKind, l: int, r: int): Option<int> {
    var min, max := MinOf(k), MaxOf(k);
    match op
    case Times =>
      if r == 0 then Fit(k, l * r) else
        var absL :- CAbs(k, l);
        var quotient :- CDiv(k, max, r);
        var limit :- CAbs(k, quotient);
        if absL <= limit then Fit(k, l * r) else if (l >= 0) == (r >= 0) then Some(max) else Some(min)
    case Divide =>
      if l >= 0 then
        if r != 0 then CDiv(k, l, r) else if l == 0 then Some(0) else Some(max)
      else
        if r != 0 && (l != min || r != -1) then CDiv(k, l, r)
        else if l == min && r == -1 then Some(max) else Some(min)
    case Modulus =>
      if r == 0 then Some(0) else
        var absL :- CAbs(k, l);
        var absR :- CAbs(k, r);
        var m :- CMod(absL, absR);
        Fit(k, (if l >= 0 then 1 else -1) * m)
    case Plus =>
      if r >= 0 then
        var limit :- Fit(k, max - r);
        if l <= limit then Fit(k, l + r) else Some(max)
      else
        var limit :- Fit(k, min - r);
        if l >= limit then Fit(k, l + r) else Some(min)
    case Minus =>
      if r >= 0 then
        var limit :- Fit(k, min + r);
        if l >= limit then Fit(k, l - r) else Some(min)
      else
        var limit :- Fit(k, max + r);
        if l <= limit then Fit(k, l - r) else Some(max)
  }

  function Calc(op: ArithOp, k: IntKind, l: int, r: int): Option<int> {
    if Signed(k) then SignedCalc(op, k, l, r) else UnsignedCalc(op, k, l, r)
  }

  // ----- the operators' C expressions on doubles, with exact reals for doubles ---------------------

  /** The whole number next to a double towards zero. */
  function TruncReal(x: real): (n: int)
    ensures x >= 0.0 ==> n as real <= x < n as real + 1.0
    ensures x <= 0.0 ==> n as real - 1.0 < x <= n as real
  {
    if x >= 0.0 then x.Floor else -((-x).Floor)
  }

  function RealCalc(op: ArithOp, l: real, r: real): real {
    match op
    case Times => l * r
    case Divide => if r != 0.0 then l / r else 0.0
    case Modulus =>
      var li, ri := TruncReal(l), TruncReal(r);
      if ri != 0 then ((if li >= 0 then 1 else -1) * (Abs(li) % Abs(ri))) as real else 0.0
    case Plus => l + r
    case Minus => l - r
  }

  // ----- what the operators mean ------------------------------------------------------------------

  function Clamp(k: IntKind, n: int): (c: int)
    ensures InRange(k, c)
  {
    if n < MinOf(k) then MinOf(k) else if n > MaxOf(k) then MaxOf(k) else n
  }

  /** The operands on which ABS(MIN) is computed in a type that cannot hold it. */
  predicate AbsOverflows(op: ArithOp, k: IntKind, l: int, r: int) {
    && WideSigned(k)
    && r != 0
    && (op.Times? || op.Modulus?)
    && (l == MinOf(k) || (op.Modulus? && r == MinOf(k)))
  }

  lemma PlusSaturates(k: IntKind, l: int, r: int)
    requires InRange(k, l) && InRange(k, r)
    ensures Calc(Plus, k, l, r) == Some(Clamp(k, l + r))
  {
    FitInside(k, if r >= 0 then MaxOf(k) - r else MinOf(k) - r);
    if InRange(k, l + r) { FitInside(k, l + r); }
  }

  lemma MinusSaturates(k: IntKind, l: int, r: int)
    requires InRange(k, l) && InRange(k, r)
    ensures Calc(Minus, k, l, r) == Some(Clamp(k, l - r))
  {
    FitInside(k, if r >= 0 then MinOf(k) + r else MaxOf(k) + r);
    if InRange(k, l - r) { FitInside(k, l - r); }
  }

  /** `*` saturates, except that its guard itself is undefined on the smallest 32- and 64-bit numbers. */
  lemma TimesSaturates(k: IntKind, l: int, r: int)
    requires InRange(k, l) && InRange(k, r)
    ensures Calc(Times, k, l, r) == if AbsOverflows(Times, k, l, r) then None else Some(Clamp(k, l * r))
  {
    if r == 0 {
      assert l * r == 0;
      FitInside(k, 0);
    } else {
      var max := MaxOf(k);
      var limit := max / Abs(r);
      DivisionLimits(max, Abs(r), Abs(l));
      assert 0 <= limit <= max;
      assert Abs(TruncDiv(max, r)) == limit;
      FitInside(k, limit);
      if Signed(k) { FitInside(k, -limit); }
      AbsOfProduct(l, r);
      if Abs(l) <= limit {
        assert InRange(k, l * r);
        FitInside(k, l * r);
      } else {
        SignOfProduct(l, r);
      }
    }
  }

  /** `/` truncates; dividing by zero gives the extreme of the dividend's sign. */
  lemma DivideTruncates(k: IntKind, l: int, r: int)
    requires InRange(k, l) && InRange(k, r)
    ensures Calc(Divide, k, l, r) == Some(
      if r != 0 then Clamp(k, TruncDiv(l, r)) else if l == 0 then 0 else if l > 0 then MaxOf(k) else MinOf(k))
  {
    if r != 0 {
      QuotientBound(Abs(l), Abs(r));
      if !(l == MinOf(k) && r == -1 && Signed(k)) {
        if l == MinOf(k) && Signed(k) && r != 1 { QuotientHalves(Abs(l), Abs(r)); }
        assert InRange(k, TruncDiv(l, r));
        FitInside(k, TruncDiv(l, r));
      }
    }
  }

  /** `%` takes the dividend's sign and the remainder of the magnitudes. */
  lemma ModulusFollowsDividend(k: IntKind, l: int, r: int)
    requires InRange(k, l) && InRange(k, r)
    ensures Calc(Modulus, k, l, r) ==
      if AbsOverflows(Modulus, k, l, r) then None
      else if r == 0 then Some(0)
      else Some(if l >= 0 then Abs(l) % Abs(r) else -(Abs(l) % Abs(r)))
  {
    if r != 0 {
      var m := Abs(l) % Abs(r);
      assert 0 <= m < Abs(r);
      assert !Signed(k) ==> l >= 0 && r > 0;
      if Signed(k) && !AbsOverflows(Modulus, k, l, r) {
        assert CAbs(k, l) == Some(Abs(l)) && CAbs(k, r) == Some(Abs(r));
        assert InRange(k, -m) && InRange(k, m);
        FitInside(k, m);
        FitInside(k, -m);
      }
    }
  }

  /** Whatever its operands, an operator that has a value has one of its operands' type. */
  lemma CalcInRange(op: ArithOp, k: IntKind, l: int, r: int)
    requires InRange(k, l) && InRange(k, r)
    ensures Calc(op, k, l, r).Some? ==> InRange(k, Calc(op, k, l, r).value)
    ensures Calc(op, k, l, r).None? <==> AbsOverflows(op, k, l, r)
  {
    match op
    case Plus => PlusSaturates(k, l, r);
    case Minus => MinusSaturates(k, l, r);
    case Times => TimesSaturates(k, l, r);
    case Divide => DivideTruncates(k, l, r);
    case Modulus =>
      ModulusFollowsDividend(k, l, r);
      if r != 0 { assert 0 <= Abs(l) % Abs(r) < Abs(r); }
  }

  // ----- x == (x / y) * y + (x % y) ---------------------------------------------------------------

  function Recompose(k: IntKind, x: int, y: int): Option<int> {
    var quotient :- Calc(Divide, k, x, y);
    var product :- Calc(Times, k, quotient, y);
    var remainder :- Calc(Modulus, k, x, y);
    Calc(Plus, k, product, remainder)
  }

  /**
   The documented invariant, with its exact reach: it fails for a zero divisor (unless the dividend is
   zero too), for MIN / -1 in a signed type, and where the remainder itself is undefined.
   */
  lemma QuotientAndRemainderRecompose(k: IntKind, x: int, y: int)
    requires InRange(k, x) && InRange(k, y)
    ensures Recompose(k, x, y) == Some(x) <==>
      && (x == 0 || (y != 0 && !(Signed(k) && x == MinOf(k) && y == -1)))
      && !AbsOverflows(Modulus, k, x, y)
  {
    if AbsOverflows(Modulus, k, x, y) {
      ModulusFollowsDividend(k, x, y);
    } else if y == 0 {
      RecomposeByZero(k, x);
    } else if Signed(k) && x == MinOf(k) && y == -1 {
      RecomposeMinByMinusOne(k);
    } else {
      RecomposeInside(k, x, y);
    }
  }

  lemma RecomposeByZero(k: IntKind, x: int)
    requires InRange(k, x)
    ensures Recompose(k, x, 0) == Some(0)
  {
    DivideTruncates(k, x, 0);
    var q := Calc(Divide, k, x, 0).value;
    assert q * 0 == 0;
    FitInside(k, 0);
    PlusSaturates(k, 0, 0);
  }

  lemma RecomposeMinByMinusOne(k: IntKind)
    requires Signed(k)
    ensures Recompose(k, MinOf(k), -1) != Some(MinOf(k))
  {
    var max := MaxOf(k);
    DivideTruncates(k, MinOf(k), -1);
    TimesSaturates(k, max, -1);
    assert max * -1 == -max;
    ModulusFollowsDividend(k, MinOf(k), -1);
    PlusSaturates(k, -max, 0);
  }

  lemma RecomposeInside(k: IntKind, x: int, y: int)
    requires InRange(k, x) && InRange(k, y) && y != 0
    requires !(Signed(k) && x == MinOf(k) && y == -1)
    requires !AbsOverflows(Modulus, k, x, y)
    ensures Recompose(k, x, y) == Some(x)
  {
    var q := TruncDiv(x, y);
    var m := if x >= 0 then Abs(x) % Abs(y) else -(Abs(x) % Abs(y));
    DivideTruncates(k, x, y);
    QuotientInRange(k, x, y);
    assert Calc(Divide, k, x, y) == Some(q);
    TimesSaturates(k, q, y);
    assert !AbsOverflows(Times, k, q, y) by { if Signed(k) && q == MinOf(k) { QuotientIsMin(k, x, y); } }
    ProductBetween(x, y);
    assert Calc(Times, k, q, y) == Some(q * y);
    ModulusFollowsDividend(k, x, y);
    CalcInRange(Modulus, k, x, y);
    TruncatedDivision(x, y);
    PlusSaturates(k, q * y, m);
  }

  lemma QuotientInRange(k: IntKind, x: int, y: int)
    requires InRange(k, x) && InRange(k, y) && y != 0
    requires !(Signed(k) && x == MinOf(k) && y == -1)
    ensures InRange(k, TruncDiv(x, y))
  {
    QuotientBound(Abs(x), Abs(y));
    if x == MinOf(k) && Signed(k) && y != 1 { QuotientHalves(Abs(x), Abs(y)); }
  }

  /** Only MIN / 1 gives MIN. */
  lemma QuotientIsMin(k: IntKind, x: int, y: int)
    requires InRange(k, x) && InRange(k, y) && y != 0 && Signed(k)
    requires TruncDiv(x, y) == MinOf(k)
    ensures x == MinOf(k)
  {
    QuotientBound(Abs(x), Abs(y));
  }

  /** The documentation has -1/0 give -MAX; the code gives MIN, which differs in every signed type. */
  lemma NegativeOverZeroIsMin(k: IntKind)
    requires Signed(k)
    ensures Calc(Divide, k, -1, 0) == Some(MinOf(k)) && MinOf(k) != -MaxOf(k)
  {
  }

  // ----- integer arithmetic -----------------------------------------------------------------------

  lemma FitInside(k: IntKind, n: int)
    requires InRange(k, n)
    ensures Fit(k, n) == Some(n)
  {
    if k.UInt32? { assert n % 0x1_0000_0000 == n; }
    if k.UInt64? { assert n % 0x1_0000_0000_0000_0000 == n; }
  }

  lemma DivisionLimits(m: nat, b: nat, a: nat)
    requires b > 0
    ensures 0 <= m / b <= m
    ensures a <= m / b <==> a * b <= m
  {
    var q := m / b;
    assert m == q * b + m % b;
    if a <= q {
      assert a * b <= q * b;
    } else {
      assert a * b >= (q + 1) * b;
    }
    QuotientBound(m, b);
  }

  lemma QuotientBound(a: nat, b: nat)
    requires b > 0
    ensures 0 <= a / b <= a
  {
    var q := a / b;
    assert a == q * b + a % b;
    SignOfProduct(q, b);
    if q >= 0 {
      SignOfProduct(q, b - 1);
      assert q * b == q + q * (b - 1);
    }
  }

  lemma QuotientHalves(a: nat, b: nat)
    requires b >= 2
    ensures 0 <= a / b && 2 * (a / b) <= a
  {
    assert a == (a / b) * b + a % b;
    assert (a / b) * b >= (a / b) * 2;
  }

  lemma AbsOfProduct(l: int, r: int)
    ensures Abs(l * r) == Abs(l) * Abs(r)
  {
    SignOfProduct(l, r);
    assert (-l) * r == -(l * r) && l * (-r) == -(l * r) && (-l) * (-r) == l * r;
  }

  lemma SignOfProduct(l: int, r: int)
    ensures l > 0 && r > 0 ==> l * r > 0
    ensures l < 0 && r < 0 ==> l * r > 0
    ensures l > 0 && r < 0 ==> l * r < 0
    ensures l < 0 && r > 0 ==> l * r < 0
    ensures l == 0 || r == 0 ==> l * r == 0
  {
    if l < 0 && r < 0 { assert l * r == (-l) * (-r); }
    if l > 0 && r < 0 { assert l * r == -(l * (-r)); }
    if l < 0 && r > 0 { assert l * r == -((-l) * r); }
  }

  lemma TruncatedDivision(x: int, y: int)
    requires y != 0
    ensures TruncDiv(x, y) * y + (if x >= 0 then Abs(x) % Abs(y) else -(Abs(x) % Abs(y))) == x
  {
    var q, m := Abs(x) / Abs(y), Abs(x) % Abs(y);
    EuclideanDivision(Abs(x), Abs(y));
    NegatedFactor(q, y);
    assert TruncDiv(x, y) == if (x < 0) == (y < 0) then q else -q;
  }

  lemma EuclideanDivision(a: nat, b: nat)
    requires b > 0
    ensures a == (a / b) * b + a % b
  {
  }

  lemma NegatedFactor(q: int, y: int)
    ensures (-q) * y == -(q * y) && q * (-y) == -(q * y)
  {
  }

  lemma ProductBetween(x: int, y: int)
    requires y != 0
    ensures if x >= 0 then 0 <= TruncDiv(x, y) * y <= x else x <= TruncDiv(x, y) * y <= 0
  {
    TruncatedDivision(x, y);
    var p, m := TruncDiv(x, y) * y, Abs(x) % Abs(y);
    assert p + (if x >= 0 then m else -m) == x;
    EuclideanDivision(Abs(x), Abs(y));
    QuotientBound(Abs(x), Abs(y));
    SignOfProduct(TruncDiv(x, y), y);
  }
}
