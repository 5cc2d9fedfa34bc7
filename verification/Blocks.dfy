/**
 Choosing random blocks of text: between separators if the text has any, and of whole characters otherwise.
 Either way a block starts and ends at character boundaries.
 */
module Blocks {
  import opened Results
  import opened Utf8

  const UINT32_MAX: nat := 0xFFFF_FFFF

  /** The bytes / . : , ; = and newline. */
  const SEPARATORS: Bytes := [0x2F, 0x2E, 0x3A, 0x2C, 0x3B, 0x3D, 0x0A]

  /** The draws that choose a block: which separator delimits it, and two positions. */
  datatype Draws = Draws(which: nat, first: nat, second: nat)

  // ----- blocks between separators ----------------------------------------------------------------

  function Count(s: Bytes, sep: Byte): (n: nat)
    ensures n > 0 <==> sep in s
  {
    if s == [] then 0 else (if s[0] == sep then 1 else 0) + Count(s[1..], sep)
  }

  /** The position just after the first k + 1 separators, or the end if there are fewer. */
  function Pass(s: Bytes, sep: Byte, k: int): (p: nat)
    ensures p <= |s|
    ensures k >= 0 && s != [] ==> p > 0
  {
    if k < 0 || s == [] then 0 else 1 + Pass(s[1..], sep, if s[0] == sep then k - 1 else k)
  }

  lemma {:induction false} PassMeans(s: Bytes, sep: Byte, k: nat)
    ensures var p := Pass(s, sep, k);
      if Count(s, sep) > k then p > 0 && s[p - 1] == sep && Count(s[..p], sep) == k + 1 else p == |s|
    decreases |s|
  {
    if s != [] {
      var p := Pass(s, sep, k);
      assert s[..p][1..] == s[1..][..p - 1];
      if s[0] == sep && k == 0 {
        assert p == 1 && s[..1] == [sep];
      } else {
        PassMeans(s[1..], sep, if s[0] == sep then k - 1 else k);
      }
    }
  }

  lemma {:induction false} PassMonotone(s: Bytes, sep: Byte, k: int, k': int)
    requires k <= k'
    ensures Pass(s, sep, k) <= Pass(s, sep, k')
    decreases |s|
  {
    if s != [] && k >= 0 {
      PassMonotone(s[1..], sep, if s[0] == sep then k - 1 else k, if s[0] == sep then k' - 1 else k');
    }
  }

  lemma PassBoundary(s: Bytes, sep: Byte, k: nat)
    requires Valid(s) && IsAscii(sep)
    ensures IsBoundary(s, Pass(s, sep, k))
  {
    PassMeans(s, sep, k);
    EndsAreBoundaries(s);
    var p := Pass(s, sep, k);
    if Count(s, sep) > k { AsciiBoundaries(s, p - 1); }
  }

  method CountSeparators(s: Bytes, sep: Byte) returns (n: nat)
    ensures n == Count(s, sep)
  {
    n := 0;
    for i := 0 to |s|
      invariant n + Count(s[i..], sep) == Count(s, sep)
    {
      if s[i] == sep {
        n := n + 1;
      }
      assert s[i..][1..] == s[i + 1..];
    }
  }

  method PassSeparators(s: Bytes, sep: Byte, k: nat) returns (p: nat)
    ensures p == Pass(s, sep, k)
  {
    var left: int := k;
    p := 0;
    while left >= 0 && p < |s|
      invariant p <= |s| && p + Pass(s[p..], sep, left) == Pass(s, sep, k)
    {
      assert s[p..][1..] == s[p + 1..];
      if s[p] == sep {
        left := left - 1;
      }
      p := p + 1;
    }
  }

  /**
   Which of n separators, counted from 0, the block that two draws choose starts after, and which it ends
   after; there is no n-th separator nor an (n + 1)-th, so either stands for the end of the text.
   */
  function Ends(n: nat, d: Draws): (ks: (nat, nat))
    requires n > 0
    ensures ks.0 < n && ks.0 < ks.1 <= n + 1
  {
    var k, k' := d.first % (n + 1), d.second % n;
    if k > k' then (k', k + 1) else (k, k' + 1)
  }

  /** Every two different separators, or a separator and the end, can be drawn. */
  lemma EndsAreArbitrary(n: nat, d: Draws, k: nat, k': nat)
    requires k < k' <= n && d.first == k && d.second == k' - 1
    ensures Ends(n, d) == (k, k')
  {
    SmallModulo(k, n + 1);
    SmallModulo(k' - 1, n);
  }

  function SeparatedBlock(s: Bytes, sep: Byte, d: Draws): (block: (nat, nat))
    requires sep in s
  {
    var (k, k') := Ends(Count(s, sep), d);
    (Pass(s, sep, k), Pass(s, sep, k'))
  }

  /** Since a block starts after a separator, it never starts where the text does. */
  lemma SeparatedBlockMeans(s: Bytes, sep: Byte, d: Draws)
    requires Valid(s) && IsAscii(sep) && sep in s
    ensures var (p, q) := SeparatedBlock(s, sep, d);
      0 < p <= q <= |s| && s[p - 1] == sep && (q == |s| || s[q - 1] == sep) && IsBoundary(s, p) && IsBoundary(s, q)
  {
    hide Valid, IsBoundary, Pass, Count, Ends;
    var (k, k') := Ends(Count(s, sep), d);
    PassMeans(s, sep, k);
    PassMeans(s, sep, k');
    PassMonotone(s, sep, k, k');
    PassBoundary(s, sep, k);
    PassBoundary(s, sep, k');
  }

  /** find_random_block_with_separator(). */
  method FindBlockWithSeparator(s: Bytes, sep: Byte, d: Draws) returns (start: nat, end: nat)
    requires sep in s
    ensures (start, end) == SeparatedBlock(s, sep, d)
  {
    var n := CountSeparators(s, sep);
    var k, k' := d.first % (n + 1), d.second % n;
    if k > k' {
      k, k' := k', k;
    }
    if k' >= k {
      k' := k' + 1;
    }
    start := PassSeparators(s, sep, k);
    end := PassSeparators(s, sep, k');
  }

  // ----- random blocks ----------------------------------------------------------------------------

  function Trues(bs: seq<bool>): (n: nat)
    ensures n <= |bs|
  {
    if bs == [] then 0 else Trues(bs[..|bs| - 1]) + if bs[|bs| - 1] then 1 else 0
  }

  function Present(s: Bytes): (bs: seq<bool>)
    ensures |bs| == |SEPARATORS| && forall j | 0 <= j < |bs| :: bs[j] == (SEPARATORS[j] in s)
  {
    seq(|SEPARATORS|, j requires 0 <= j < |SEPARATORS| => SEPARATORS[j] in s)
  }

  /** The number of different separators in some text. */
  function Kinds(s: Bytes): nat {
    Trues(Present(s))
  }

  lemma {:induction false} TruesSet(bs: seq<bool>, j: nat)
    requires j < |bs| && !bs[j]
    ensures Trues(bs[j := true]) == Trues(bs) + 1
  {
    var n := |bs| - 1;
    if j < n {
      assert bs[j := true][..n] == bs[..n][j := true];
      TruesSet(bs[..n], j);
    } else {
      assert bs[j := true][..n] == bs[..n];
    }
  }

  lemma {:induction false} AllTrue(bs: seq<bool>)
    ensures Trues(bs) == |bs| <==> forall j | 0 <= j < |bs| :: bs[j]
  {
    if bs != [] { AllTrue(bs[..|bs| - 1]); }
  }

  /** The place of the (n + 1)-th true. */
  function IndexOfTrue(bs: seq<bool>, n: nat): (j: nat)
    requires n < Trues(bs)
    ensures j < |bs| && bs[j] && Trues(bs[..j]) == n
  {
    var m := |bs| - 1;
    if n < Trues(bs[..m]) then
      var j := IndexOfTrue(bs[..m], n);
      assert bs[..m][..j] == bs[..j];
      j
    else m
  }

  lemma {:induction false} IndexOfTrueUnique(bs: seq<bool>, j: nat)
    requires j < |bs| && bs[j]
    ensures Trues(bs[..j]) < Trues(bs) && IndexOfTrue(bs, Trues(bs[..j])) == j
  {
    var m := |bs| - 1;
    if j < m {
      assert bs[..m][..j] == bs[..j];
      IndexOfTrueUnique(bs[..m], j);
    }
  }

  /** Look for each kind of separator, stopping early once all have been found. */
  method FindSeparators(s: Bytes) returns (present: array<bool>, found: nat)
    ensures fresh(present) && present[..] == Present(s) && found == Kinds(s)
  {
    present := new bool[|SEPARATORS|](_ => false);
    found := 0;
    NothingPresent(present[..]);
    var i := 0;
    while found < |SEPARATORS| && i < |s|
      invariant i <= |s| && present.Length == |SEPARATORS| && fresh(present)
      invariant forall j | 0 <= j < |SEPARATORS| :: present[j] == (SEPARATORS[j] in s[..i])
      invariant found == Trues(present[..])
      decreases |s| - i
    {
      assert s[..i + 1] == s[..i] + [s[i]];
      for j := 0 to |SEPARATORS|
        invariant forall k | 0 <= k < |SEPARATORS| ::
          present[k] == (SEPARATORS[k] in if k < j then s[..i + 1] else s[..i])
        invariant found == Trues(present[..])
      {
        if s[i] == SEPARATORS[j] && !present[j] {
          TruesSet(present[..], j);
          present[j] := true;
          found := found + 1;
        }
      }
      i := i + 1;
    }
    AllTrue(present[..]);
    forall j | 0 <= j < |SEPARATORS| ensures present[j] == (SEPARATORS[j] in s) {
      if i == |s| { assert s[..i] == s; }
      if present[j] { assert SEPARATORS[j] in s[..i]; }
    }
    assert present[..] == Present(s);
  }

  lemma {:induction false} NothingPresent(bs: seq<bool>)
    requires forall j | 0 <= j < |bs| :: !bs[j]
    ensures Trues(bs) == 0
  {
    if bs != [] { NothingPresent(bs[..|bs| - 1]); }
  }

  /** Each of n separators' share of the range of draws. */
  function Share(n: nat): nat
    requires n > 0
  {
    UINT32_MAX / n
  }

  lemma ShareGrows(a: nat, b: nat, share: nat)
    ensures (a + 1) * share == a * share + share
    ensures a <= b ==> a * share <= b * share
  {
    if a <= b { assert b * share == a * share + (b - a) * share; }
  }

  /** The draw falls into the rounding gap that no separator's interval covers. */
  predicate InGap(s: Bytes, which: nat) {
    Kinds(s) > 0 && which >= Kinds(s) * Share(Kinds(s))
  }

  /** The interval of a draw that falls into none of the gaps, and the separator that interval belongs to. */
  function ChosenSeparator(s: Bytes, which: nat): (sep: Byte)
    requires Kinds(s) > 0 && !InGap(s, which)
    ensures sep in SEPARATORS && sep in s && IsAscii(sep)
  {
    hide Trues, Share;
    IntervalOf(Kinds(s), which);
    var j := IndexOfTrue(Present(s), which / Share(Kinds(s)));
    SeparatorsAreAscii(j);
    SEPARATORS[j]
  }

  lemma SeparatorsAreAscii(j: nat)
    requires j < |SEPARATORS|
    ensures IsAscii(SEPARATORS[j])
  {
  }

  lemma IntervalOf(n: nat, which: nat)
    requires 0 < n <= |SEPARATORS| && which < n * Share(n)
    ensures Share(n) > 0 && which / Share(n) < n
  {
    QuotientOf(which, Share(n), which / Share(n));
    if which / Share(n) >= n { ShareGrows(n, which / Share(n), Share(n)); }
  }

  lemma QuotientOf(a: nat, b: nat, q: nat)
    requires b > 0
    ensures q == a / b <==> q * b <= a < q * b + b
  {
    var r := a / b;
    assert a == r * b + a % b;
    if q < r { ShareGrows(q + 1, r, b); ShareGrows(q, r, b); }
    if q > r { ShareGrows(r + 1, q, b); ShareGrows(r, q, b); }
  }

  /** Choose the separator whose share of the range of draws the draw falls into. */
  method ChooseSeparator(present: array<bool>, found: nat, which: nat) returns (choice: Option<nat>)
    requires 0 < found <= |SEPARATORS| && found == Trues(present[..])
    ensures choice.None? <==> which >= found * Share(found)
    ensures choice.Some? ==>
      which / Share(found) < found && choice.value == IndexOfTrue(present[..], which / Share(found))
  {
    hide Share;
    assert Share(found) > 0 by { SharesArePositive(found); }
    var share := Share(found);
    var distribution := which;
    ghost var passed := 0;
    for j := 0 to present.Length
      invariant passed == Trues(present[..j]) && which == distribution + passed * share
    {
      assert present[..j + 1][..j] == present[..j];
      if present[j] {
        if distribution < share {
          IndexOfTrueUnique(present[..], j);
          assert present[..][..j] == present[..j];
          ShareGrows(passed, found, share);
          ShareGrows(passed + 1, found, share);
          QuotientOf(which, share, passed);
          return Some(j);
        }
        ShareGrows(passed, found, share);
        distribution := distribution - share;
        passed := passed + 1;
      }
    }
    assert present[..present.Length] == present[..];
    return None;
  }

  lemma SharesArePositive(n: nat)
    requires 0 < n <= |SEPARATORS|
    ensures Share(n) > 0
  {
  }

  method CountCharacters(s: Bytes) returns (n: nat)
    requires Valid(s)
    ensures n == Length(s)
  {
    var p := 0;
    n := 0;
    while p < |s|
      invariant p <= |s| && Valid(s[p..]) && n + Length(s[p..]) == Length(s)
      decreases |s| - p
    {
      var l := CharLength(s[p..]);
      assert s[p..][l..] == s[p + l..];
      p, n := p + l, n + 1;
    }
  }

  lemma {:induction false} PositionLeaves(s: Bytes, k: nat)
    requires Valid(s) && k <= Length(s)
    ensures Valid(s[Position(s, k)..]) && Length(s[Position(s, k)..]) == Length(s) - k
    decreases |s|
  {
    hide CharLength;
    if k == 0 {
      assert s[0..] == s;
    } else {
      var n := CharLength(s);
      PositionLeaves(s[n..], k - 1);
      assert s[n..][Position(s[n..], k - 1)..] == s[Position(s, k)..];
    }
  }

  /** The block of characters that two draws choose. */
  function AnyBlock(s: Bytes, d: Draws): (block: (nat, nat))
    requires Valid(s) && s != []
    ensures block.0 <= block.1 <= |s| && IsBoundary(s, block.0) && IsBoundary(s, block.1)
  {
    hide Valid, IsBoundary, Position, Length, CharLength;
    var from := d.first % Length(s);
    var start := Position(s, from);
    PositionsAreBoundaries(s, from);
    PositionLeaves(s, from);
    var to := d.second % (Length(s) - from + 1);
    PositionsAreBoundaries(s[start..], to);
    BoundaryShifts(s, start, Position(s[start..], to));
    (start, start + Position(s[start..], to))
  }

  /** Any block, by character positions, for text without separators. */
  method FindAnyBlock(s: Bytes, d: Draws) returns (start: nat, end: nat)
    requires Valid(s) && s != []
    ensures (start, end) == AnyBlock(s, d)
  {
    hide Valid, IsBoundary, Position, Length, CharLength;
    var length := CountCharacters(s);
    var from := d.first % length;
    start := Position(s, from);
    PositionLeaves(s, from);
    var to := d.second % (length - from + 1);
    end := start + Position(s[start..], to);
  }

  /** The block that the draws choose, if they do: one between separators if the text has any. */
  function RandomBlock(s: Bytes, d: Draws): (block: Option<(nat, nat)>)
    requires Valid(s)
    ensures block.None? <==> InGap(s, d.which)
    ensures block.Some? ==>
      block.value.0 <= block.value.1 <= |s| && IsBoundary(s, block.value.0) && IsBoundary(s, block.value.1)
  {
    hide Valid, IsBoundary, Share, Trues, Pass;
    EndsAreBoundaries(s);
    if s == [] then
      NothingPresent(Present(s));
      Some((0, 0))
    else if Kinds(s) == 0 then Some(AnyBlock(s, d))
    else if InGap(s, d.which) then None
    else
      SeparatedBlockMeans(s, ChosenSeparator(s, d.which), d);
      Some(SeparatedBlock(s, ChosenSeparator(s, d.which), d))
  }

  /**
   find_random_block(): a block between separators if the text has any, otherwise any block. The choice
   fails its assertion exactly when the draw for the separator falls into the rounding gap.
   */
  method FindRandomBlock(s: Bytes, d: Draws) returns (block: Option<(nat, nat)>)
    requires Valid(s)
    ensures block == RandomBlock(s, d)
  {
    hide Valid, IsBoundary, Share, Trues, Pass, SeparatedBlock, AnyBlock, IndexOfTrue;
    if s == [] {
      return Some((0, 0));
    }
    var present, found := FindSeparators(s);
    if found == 0 {
      var start, end := FindAnyBlock(s, d);
      return Some((start, end));
    }
    var choice := ChooseSeparator(present, found, d.which);
    if choice.None? {
      return None;
    }
    assert SEPARATORS[choice.value] == ChosenSeparator(s, d.which);
    var start, end := FindBlockWithSeparator(s, SEPARATORS[choice.value], d);
    block := Some((start, end));
  }

  /** In text with separators, a block lies between two of one kind, or one and the end, and not at the start. */
  lemma RandomBlockSeparated(s: Bytes, d: Draws)
    requires Valid(s) && Kinds(s) > 0 && !InGap(s, d.which)
    ensures s != [] && RandomBlock(s, d).Some?
    ensures var (p, q) := RandomBlock(s, d).value; var sep := ChosenSeparator(s, d.which);
      0 < p <= q <= |s| && s[p - 1] == sep && (q == |s| || s[q - 1] == sep)
  {
    hide Valid, IsBoundary, Trues, Pass, Count, Share, SeparatedBlock, ChosenSeparator;
    if s == [] { NothingPresent(Present(s)); }
    SeparatedBlockMeans(s, ChosenSeparator(s, d.which), d);
  }

  /** Every block between two separators of one kind, or one and the end of the text, can be drawn. */
  lemma SeparatedBlocksAreDrawn(s: Bytes, j: nat, k: nat, k': nat) returns (d: Draws)
    requires Valid(s) && j < |SEPARATORS| && SEPARATORS[j] in s && k < k' <= Count(s, SEPARATORS[j])
    ensures d.which <= UINT32_MAX
    ensures RandomBlock(s, d) == Some((Pass(s, SEPARATORS[j], k), Pass(s, SEPARATORS[j], k')))
  {
    hide Valid, IsBoundary, Pass, Count, Trues, Share;
    var bs, sep := Present(s), SEPARATORS[j];
    IndexOfTrueUnique(bs, j);
    var n, m := Kinds(s), Trues(bs[..j]);
    SharesArePositive(n);
    ShareGrows(m, n, Share(n));
    ShareGrows(m + 1, n, Share(n));
    QuotientOf(m * Share(n), Share(n), m);
    SharesFit(n);
    d := Draws(m * Share(n), k, k' - 1);
    assert ChosenSeparator(s, d.which) == sep;
    EndsAreArbitrary(Count(s, sep), d, k, k');
  }

  /** Without separators, every block of characters but one that starts at the end can be drawn. */
  lemma CharacterBlocksAreDrawn(s: Bytes, from: nat, to: nat) returns (d: Draws)
    requires Valid(s) && s != [] && Kinds(s) == 0 && from <= to <= Length(s) && from < Length(s)
    ensures Valid(s[Position(s, from)..]) && to - from <= Length(s[Position(s, from)..])
    ensures var p := Position(s, from); RandomBlock(s, d) == Some((p, p + Position(s[p..], to - from)))
  {
    hide Valid, IsBoundary, Kinds, Position, Length, Share, SeparatedBlock, ChosenSeparator;
    PositionLeaves(s, from);
    d := Draws(0, from, to - from);
    SmallModulo(from, Length(s));
    SmallModulo(to - from, Length(s) - from + 1);
    assert AnyBlock(s, d) == (Position(s, from), Position(s, from) + Position(s[Position(s, from)..], to - from));
  }

  lemma SmallModulo(a: nat, b: nat)
    requires a < b
    ensures a % b == a
  {
  }

  lemma SharesFit(n: nat)
    requires n > 0
    ensures n * Share(n) <= UINT32_MAX
  {
  }

  /** No draw falls into the gap of a single separator but the largest, and none at all without separators. */
  lemma GapIsSmall(s: Bytes, which: nat)
    requires which <= UINT32_MAX && InGap(s, which)
    ensures which > UINT32_MAX - Kinds(s) && Kinds(s) <= |SEPARATORS|
    ensures Kinds(s) == 1 ==> which == UINT32_MAX
  {
    var n := Kinds(s);
    assert UINT32_MAX == n * (UINT32_MAX / n) + UINT32_MAX % n;
  }
}
