/**
 UTF-8 text without NULs, after sections 3 and 4 of RFC 3629, and where it can be cut.
 */
module Utf8 {

  newtype Byte = x: int | 0 <= x < 256

  type Bytes = seq<Byte>

  predicate IsAscii(b: Byte) {
    1 <= b < 0x80
  }

  predicate IsTail(b: Byte) {
    0x80 <= b < 0xC0
  }

  /** The bytes a second byte may come from, after a given lead byte of three or four bytes. */
  predicate IsSecond(lead: Byte, b: Byte) {
    if lead == 0xE0 then 0xA0 <= b < 0xC0
    else if lead == 0xED then 0x80 <= b < 0xA0
    else if lead == 0xF0 then 0x90 <= b < 0xC0
    else if lead == 0xF4 then 0x80 <= b < 0x90
    else IsTail(b)
  }

  /** The length of the character at the start of some text, or 0 if there is no well-formed one. */
  function CharLength(s: Bytes): (n: nat)
    requires s != []
    ensures n <= |s| && n <= 4
    ensures IsAscii(s[0]) ==> n == 1
    ensures forall i | 0 < i < n :: IsTail(s[i])
  {
    var b := s[0];
    if IsAscii(b) then 1
    else if 0xC2 <= b < 0xE0 then if |s| > 1 && IsTail(s[1]) then 2 else 0
    else if 0xE0 <= b < 0xF0 then if |s| > 2 && IsSecond(b, s[1]) && IsTail(s[2]) then 3 else 0
    else if 0xF0 <= b < 0xF5 then if |s| > 3 && IsSecond(b, s[1]) && IsTail(s[2]) && IsTail(s[3]) then 4 else 0
    else 0
  }

  predicate Valid(s: Bytes) {
    s == [] || (CharLength(s) > 0 && Valid(s[CharLength(s)..]))
  }

  /** g_utf8_strlen(). */
  function Length(s: Bytes): (n: nat)
    requires Valid(s)
    ensures n <= |s| && (s != [] ==> n > 0)
  {
    if s == [] then 0 else 1 + Length(s[CharLength(s)..])
  }

  /** g_utf8_offset_to_pointer(): the position of the k-th character. */
  function Position(s: Bytes, k: nat): (p: nat)
    requires Valid(s) && k <= Length(s)
    ensures p <= |s|
  {
    if k == 0 then 0 else CharLength(s) + Position(s[CharLength(s)..], k - 1)
  }

  /** A place at which valid text can be cut into two valid texts. */
  predicate IsBoundary(s: Bytes, p: nat) {
    p <= |s| && Valid(s[..p]) && Valid(s[p..])
  }

  lemma PrefixCharLength(a: Bytes, b: Bytes)
    requires a != [] && CharLength(a) > 0
    ensures CharLength(a + b) == CharLength(a)
  {
  }

  /** Valid texts put together are valid. */
  lemma {:induction false} ValidConcat(a: Bytes, b: Bytes)
    requires Valid(a) && Valid(b)
    ensures Valid(a + b)
    decreases |a|
  {
    if a == [] {
      assert a + b == b;
    } else {
      PrefixCharLength(a, b);
      var n := CharLength(a);
      ValidConcat(a[n..], b);
      assert (a + b)[n..] == a[n..] + b;
    }
  }

  /** What follows a valid text in a valid text is valid. */
  lemma {:induction false} ValidRest(a: Bytes, b: Bytes)
    requires Valid(a) && Valid(a + b)
    ensures Valid(b)
    decreases |a|
  {
    if a == [] {
      assert a + b == b;
    } else {
      PrefixCharLength(a, b);
      var n := CharLength(a);
      assert (a + b)[n..] == a[n..] + b;
      ValidRest(a[n..], b);
    }
  }

  lemma EndsAreBoundaries(s: Bytes)
    requires Valid(s)
    ensures IsBoundary(s, 0) && IsBoundary(s, |s|)
  {
    assert s[..|s|] == s && s[0..] == s && s[|s|..] == [];
  }

  /** A boundary of the rest of a text is a boundary of the text. */
  lemma BoundaryShifts(s: Bytes, n: nat, p: nat)
    requires IsBoundary(s, n) && IsBoundary(s[n..], p)
    ensures IsBoundary(s, n + p)
  {
    assert s[..n + p] == s[..n] + s[n..][..p] && s[n..][p..] == s[n + p..];
    ValidConcat(s[..n], s[n..][..p]);
  }

  lemma FirstCharBoundary(s: Bytes)
    requires Valid(s) && s != []
    ensures IsBoundary(s, CharLength(s))
  {
    var n := CharLength(s);
    assert CharLength(s[..n]) == n && s[..n][n..] == [];
  }

  /** Text can be cut on either side of an ASCII character, wherever it stands. */
  lemma {:induction false} AsciiBoundaries(s: Bytes, i: nat)
    requires Valid(s) && i < |s| && IsAscii(s[i])
    ensures IsBoundary(s, i) && IsBoundary(s, i + 1)
    decreases |s|
  {
    var n := CharLength(s);
    FirstCharBoundary(s);
    EndsAreBoundaries(s);
    if i > 0 {
      assert i >= n;
      AsciiBoundaries(s[n..], i - n);
      BoundaryShifts(s, n, i - n);
      BoundaryShifts(s, n, i - n + 1);
    }
  }

  lemma {:induction false} PositionsAreBoundaries(s: Bytes, k: nat)
    requires Valid(s) && k <= Length(s)
    ensures IsBoundary(s, Position(s, k))
    decreases |s|
  {
    hide CharLength, IsBoundary;
    EndsAreBoundaries(s);
    if k > 0 {
      var n := CharLength(s);
      FirstCharBoundary(s);
      PositionsAreBoundaries(s[n..], k - 1);
      BoundaryShifts(s, n, Position(s[n..], k - 1));
    }
  }

  /** The text between two boundaries is valid, and each is a boundary of what the other cuts off. */
  lemma ValidBetween(s: Bytes, p: nat, q: nat)
    requires IsBoundary(s, p) && IsBoundary(s, q) && p <= q
    ensures Valid(s[p..q])
  {
    assert s[..q] == s[..p] + s[p..q];
    ValidRest(s[..p], s[p..q]);
  }

  /** One ASCII character may replace another. */
  lemma AsciiReplaced(s: Bytes, i: nat, b: Byte)
    requires Valid(s) && i < |s| && IsAscii(s[i]) && IsAscii(b)
    ensures Valid(s[i := b])
  {
    AsciiBoundaries(s, i);
    assert s[i := b] == s[..i] + ([b] + s[i + 1..]);
    assert [b][1..] == [] && Valid([b]);
    ValidConcat([b], s[i + 1..]);
    ValidConcat(s[..i], [b] + s[i + 1..]);
  }

  /** Text of nothing but ASCII characters is valid. */
  lemma {:induction false} AsciiIsValid(s: Bytes)
    requires forall i | 0 <= i < |s| :: IsAscii(s[i])
    ensures Valid(s)
    decreases |s|
  {
    if s != [] { AsciiIsValid(s[1..]); }
  }
}
