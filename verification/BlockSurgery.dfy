/**
 The block surgery of the string fuzzer: deleting, cloning, overwriting and swapping random blocks of
 valid text, and padding it with whitespace. The result is valid text of a known length.
 */
module BlockSurgery {
  import opened Results
  import opened Utf8
  import opened Blocks

  /** A block of some text, cut at character boundaries. */
  predicate IsBlock(s: Bytes, p: nat, q: nat) {
    p <= q && IsBoundary(s, p) && IsBoundary(s, q)
  }

  // ----- deleting and cloning ---------------------------------------------------------------------

  /** Delete the block drawn. */
  method DeleteBlock(s: Bytes, d: Draws) returns (r: Option<Bytes>)
    requires Valid(s)
    ensures r.None? <==> InGap(s, d.which)
    ensures r.Some? ==> var (p, q) := RandomBlock(s, d).value;
      Valid(r.value) && r.value == s[..p] + s[q..] && |r.value| == |s| - (q - p)
  {
    var block := FindRandomBlock(s, d);
    if block.None? {
      return None;
    }
    var (p, q) := block.value;
    ValidConcat(s[..p], s[q..]);
    r := Some(s[..p] + s[q..]);
  }

  /** Put the block drawn in a second time, right after itself. */
  method CloneBlock(s: Bytes, d: Draws) returns (r: Option<Bytes>)
    requires Valid(s)
    ensures r.None? <==> InGap(s, d.which)
    ensures r.Some? ==> var (p, q) := RandomBlock(s, d).value;
      Valid(r.value) && r.value == s[..q] + s[p..q] + s[q..] && |r.value| == |s| + (q - p)
  {
    var block := FindRandomBlock(s, d);
    if block.None? {
      return None;
    }
    var (p, q) := block.value;
    ValidBetween(s, p, q);
    ValidConcat(s[..q], s[p..q]);
    ValidConcat(s[..q] + s[p..q], s[q..]);
    r := Some(s[..q] + s[p..q] + s[q..]);
  }

  lemma Cut(u: Bytes, v: Bytes)
    ensures (u + v)[..|u|] == u && (u + v)[|u|..] == v
  {
  }

  /** Deleting the clone gives the text back. */
  lemma DeleteUndoesClone(s: Bytes, p: nat, q: nat)
    requires IsBlock(s, p, q)
    ensures var c := s[..q] + s[p..q] + s[q..];
      IsBlock(c, q, q + (q - p)) && c[..q] + c[q + (q - p)..] == s
  {
    hide Valid;
    ValidBetween(s, p, q);
    assert s[..q] + s[q..] == s;
    CloneDeleted(s[..q], s[p..q], s[q..]);
  }

  lemma CloneDeleted(x: Bytes, y: Bytes, z: Bytes)
    requires Valid(x) && Valid(y) && Valid(z)
    ensures var c := x + y + z;
      IsBlock(c, |x|, |x| + |y|) && c[..|x|] + c[|x| + |y|..] == x + z
  {
    hide Valid;
    ValidConcat(y, z);
    ValidConcat(x, y);
    assert x + y + z == x + (y + z);
    Cut(x, y + z);
    Cut(x + y, z);
  }

  // ----- overwriting ------------------------------------------------------------------------------

  /** "deadbeef" */
  const FILLER: Bytes := [0x64, 0x65, 0x61, 0x64, 0x62, 0x65, 0x65, 0x66]

  /** "fuzzing" */
  const ENDING: Bytes := [0x66, 0x75, 0x7A, 0x7A, 0x69, 0x6E, 0x67]

  /** The k-th byte of an overwritten block of n: the filler as often as it fits, then the end of the ending. */
  function FillerAt(n: nat, k: nat): (b: Byte)
    requires k < n
    ensures IsAscii(b)
  {
    if k < n - n % 8 then FILLER[k % 8] else ENDING[7 - n % 8 + (k - (n - n % 8))]
  }

  function Filled(n: nat): (s: Bytes)
    ensures |s| == n && forall k | 0 <= k < n :: s[k] == FillerAt(n, k)
  {
    seq(n, k requires 0 <= k < n => FillerAt(n, k))
  }

  lemma FullFiller(n: nat, m: nat)
    requires m % 8 == 0 && m + 8 <= n
    ensures forall j: nat {:trigger FILLER[j]} | j < 8 :: FillerAt(n, m + j) == FILLER[j]
  {
    forall j: nat {:trigger FILLER[j]} | j < 8 ensures FillerAt(n, m + j) == FILLER[j] {
      assert (m + j) % 8 == j;
    }
  }

  lemma RestFiller(n: nat, j: nat)
    requires j < n % 8
    ensures FillerAt(n, n - n % 8 + j) == ENDING[7 - n % 8 + j]
  {
  }

  method WriteFiller(a: array<Byte>, i: nat)
    requires i + 8 <= a.Length
    modifies a
    ensures forall k | 0 <= k < a.Length :: a[k] == if i <= k < i + 8 then FILLER[k - i] else old(a[k])
  {
    a[i], a[i + 1], a[i + 2], a[i + 3] := FILLER[0], FILLER[1], FILLER[2], FILLER[3];
    a[i + 4], a[i + 5], a[i + 6], a[i + 7] := FILLER[4], FILLER[5], FILLER[6], FILLER[7];
  }

  /** Fill a block in place: eight bytes at a time, then what is left. */
  method FillBlock(a: array<Byte>, start: nat, end: nat)
    requires start <= end <= a.Length
    modifies a
    ensures a[..] == old(a[..start]) + Filled(end - start) + old(a[end..])
  {
    hide FillerAt;
    ghost var n := end - start;
    var i := start;
    while i + 8 <= end
      invariant start <= i <= end && (i - start) % 8 == 0
      invariant forall k | start <= k < i :: a[k] == FillerAt(n, k - start)
      invariant forall k | 0 <= k < a.Length && !(start <= k < i) :: a[k] == old(a[k])
    {
      FullFiller(n, i - start);
      WriteFiller(a, i);
      forall k | i <= k < i + 8 ensures a[k] == FillerAt(n, k - start) {
        assert FillerAt(n, i - start + (k - i)) == FILLER[k - i];
      }
      i := i + 8;
    }
    var left := end - i;
    assert left == n % 8;
    for j := 0 to left
      invariant forall k | start <= k < i + j :: a[k] == FillerAt(n, k - start)
      invariant forall k | 0 <= k < a.Length && !(start <= k < i + j) :: a[k] == old(a[k])
    {
      a[i + j] := ENDING[7 - left + j];
      RestFiller(n, j);
    }
  }

  /** Overwrite the block drawn, in place. */
  method OverwriteBlock(s: Bytes, d: Draws) returns (r: Option<Bytes>)
    requires Valid(s)
    ensures r.None? <==> InGap(s, d.which)
    ensures r.Some? ==> var (p, q) := RandomBlock(s, d).value;
      Valid(r.value) && r.value == s[..p] + Filled(q - p) + s[q..] && |r.value| == |s|
  {
    var block := FindRandomBlock(s, d);
    if block.None? {
      return None;
    }
    var (p, q) := block.value;
    var a := new Byte[|s|](i requires 0 <= i < |s| => s[i]);
    assert a[..] == s;
    FillBlock(a, p, q);
    assert a[..] == s[..p] + Filled(q - p) + s[q..];
    AsciiIsValid(Filled(q - p));
    ValidConcat(s[..p], Filled(q - p));
    ValidConcat(s[..p] + Filled(q - p), s[q..]);
    r := Some(a[..]);
  }

  // ----- swapping ---------------------------------------------------------------------------------

  /** Two blocks, the first wholly before the second. */
  predicate InOrder(s: Bytes, p: nat, q: nat, p': nat, q': nat) {
    IsBlock(s, p, q) && IsBlock(s, p', q') && q <= p'
  }

  function Swapped(s: Bytes, p: nat, q: nat, p': nat, q': nat): Bytes
    requires p <= q <= p' <= q' <= |s|
  {
    s[..p] + s[p'..q'] + s[q..p'] + s[p..q] + s[q'..]
  }

  /** The larger of the portions of the text left by a block. */
  function Larger(s: Bytes, p: nat, q: nat): (t: Bytes)
    requires IsBlock(s, p, q)
    ensures Valid(t) && |t| >= |s| - (q - p) - |t|
  {
    if p > |s| - q then s[..p] else s[q..]
  }

  /** A block of the larger portion as a block of the whole text, which never overlaps the first. */
  lemma LargerBlock(s: Bytes, p: nat, q: nat, p': nat, q': nat)
    requires IsBlock(s, p, q) && IsBlock(Larger(s, p, q), p', q')
    ensures if p > |s| - q then InOrder(s, p', q', p, q) else InOrder(s, p, q, q + p', q + q')
  {
    hide Valid;
    if p > |s| - q {
      BlockOfPrefix(s, p, p');
      BlockOfPrefix(s, p, q');
    } else {
      BoundaryShifts(s, q, p');
      BoundaryShifts(s, q, q');
    }
  }

  /** The block of the whole text that the draws choose from the larger portion. */
  function OtherBlock(s: Bytes, p: nat, q: nat, d: Draws): Option<(nat, nat)>
    requires IsBlock(s, p, q)
  {
    var block :- RandomBlock(Larger(s, p, q), d);
    Some(if p > |s| - q then block else (q + block.0, q + block.1))
  }

  /** It never overlaps the first, and is missing exactly when its draw falls into the gap of the larger portion. */
  lemma OtherBlockMeans(s: Bytes, p: nat, q: nat, d: Draws)
    requires IsBlock(s, p, q)
    ensures OtherBlock(s, p, q, d).None? <==> InGap(Larger(s, p, q), d.which)
    ensures OtherBlock(s, p, q, d).Some? ==> var (p', q') := OtherBlock(s, p, q, d).value;
      if p > |s| - q then InOrder(s, p', q', p, q) else InOrder(s, p, q, p', q')
  {
    hide Valid, IsBoundary, RandomBlock, InGap, Larger, InOrder;
    var block := RandomBlock(Larger(s, p, q), d);
    if block.Some? { LargerBlock(s, p, q, block.value.0, block.value.1); }
  }

  /**
   The two blocks drawn change places. It comes to nothing exactly when one of the two draws of a separator
   falls into the rounding gap of the text its block is drawn from.
   */
  method SwapBlocks(s: Bytes, d1: Draws, d2: Draws) returns (r: Option<Bytes>)
    requires Valid(s)
    ensures r.None? <==>
      InGap(s, d1.which) || (var (p, q) := RandomBlock(s, d1).value; InGap(Larger(s, p, q), d2.which))
    ensures r.Some? ==>
      var (p, q) := RandomBlock(s, d1).value;
      OtherBlock(s, p, q, d2).Some? &&
      var (p', q') := OtherBlock(s, p, q, d2).value;
      if p > |s| - q then InOrder(s, p', q', p, q) && r.value == Swapped(s, p', q', p, q)
      else InOrder(s, p, q, p', q') && r.value == Swapped(s, p, q, p', q')
    ensures r.Some? ==> Valid(r.value) && |r.value| == |s| && multiset(r.value) == multiset(s)
  {
    hide Valid, Swapped, InGap, RandomBlock;
    var block := FindRandomBlock(s, d1);
    if block.None? {
      return None;
    }
    var (p, q) := block.value;
    OtherBlockMeans(s, p, q, d2);
    var p', q' := p, q;
    if p > |s| - q {
      var other := FindRandomBlock(s[..p], d2);
      if other.None? {
        return None;
      }
      p, q := other.value.0, other.value.1;
      assert OtherBlock(s, p', q', d2) == Some((p, q));
    } else {
      var other := FindRandomBlock(s[q..], d2);
      if other.None? {
        return None;
      }
      p', q' := q + other.value.0, q + other.value.1;
      assert OtherBlock(s, p, q, d2) == Some((p', q'));
    }
    SwapIsValid(s, p, q, p', q');
    SwapPermutes(s, p, q, p', q');
    r := Some(Swapped(s, p, q, p', q'));
  }

  lemma BlockOfPrefix(s: Bytes, n: nat, p: nat)
    requires IsBoundary(s, n) && IsBoundary(s[..n], p)
    ensures IsBoundary(s, p)
  {
    assert s[..n][..p] == s[..p] && s[p..] == s[..n][p..] + s[n..];
    ValidConcat(s[..n][p..], s[n..]);
  }

  lemma SwapIsValid(s: Bytes, p: nat, q: nat, p': nat, q': nat)
    requires InOrder(s, p, q, p', q')
    ensures Valid(Swapped(s, p, q, p', q'))
  {
    ValidBetween(s, p, q);
    ValidBetween(s, q, p');
    ValidBetween(s, p', q');
    ValidConcat(s[..p], s[p'..q']);
    ValidConcat(s[..p] + s[p'..q'], s[q..p']);
    ValidConcat(s[..p] + s[p'..q'] + s[q..p'], s[p..q]);
    ValidConcat(s[..p] + s[p'..q'] + s[q..p'] + s[p..q], s[q'..]);
  }

  lemma SwapPermutes(s: Bytes, p: nat, q: nat, p': nat, q': nat)
    requires p <= q <= p' <= q' <= |s|
    ensures multiset(Swapped(s, p, q, p', q')) == multiset(s) && |Swapped(s, p, q, p', q')| == |s|
  {
    assert s == s[..p] + s[p..q] + s[q..p'] + s[p'..q'] + s[q'..];
  }

  /** Swapping the two blocks again, where they now are, gives the text back. */
  lemma SwapUndoesSwap(s: Bytes, p: nat, q: nat, p': nat, q': nat)
    requires p <= q <= p' <= q' <= |s|
    ensures var t := Swapped(s, p, q, p', q');
      |t| == |s| && Swapped(t, p, p + (q' - p'), q' - (q - p), q') == s
  {
    var t := Swapped(s, p, q, p', q');
    var m := p + (q' - p');
    assert t[..p] == s[..p] && t[p..m] == s[p'..q'] && t[m..q' - (q - p)] == s[q..p'];
    assert t[q' - (q - p)..q'] == s[p..q] && t[q'..] == s[q'..];
    assert s == s[..p] + s[p..q] + s[q..p'] + s[p'..q'] + s[q'..];
  }

  // ----- padding ----------------------------------------------------------------------------------

  /** Space, tab, newline, carriage return, vertical tab and form feed. */
  const WHITESPACE: Bytes := [0x20, 0x09, 0x0A, 0x0D, 0x0B, 0x0C]

  /** generate_whitespace(): fill a buffer from its end. */
  method GenerateWhitespace(length: nat, draw: nat -> nat) returns (w: Bytes)
    ensures |w| == length && forall i | 0 <= i < length :: w[i] in WHITESPACE
  {
    var buffer := new Byte[length];
    var left := length;
    while left > 0
      invariant left <= length && buffer.Length == length
      invariant forall i | left <= i < length :: buffer[i] in WHITESPACE
    {
      left := left - 1;
      buffer[left] := WHITESPACE[draw(left) % |WHITESPACE|];
    }
    w := buffer[..];
  }

  /** Add whitespace on either side, around the text as it was. */
  method PadText(s: Bytes, prefix: nat, suffix: nat, draw: nat -> nat, draw': nat -> nat) returns (r: Bytes)
    requires Valid(s)
    ensures Valid(r) && |r| == prefix + |s| + suffix && r[prefix..prefix + |s|] == s
    ensures forall i | 0 <= i < |r| && !(prefix <= i < prefix + |s|) :: r[i] in WHITESPACE
  {
    var before := GenerateWhitespace(prefix, draw);
    var after := GenerateWhitespace(suffix, draw');
    AsciiIsValid(before);
    AsciiIsValid(after);
    ValidConcat(before, s);
    ValidConcat(before + s, after);
    r := before + s + after;
  }

  // ----- changing case ----------------------------------------------------------------------------

  predicate IsUpper(b: Byte) {
    0x41 <= b <= 0x5A
  }

  predicate IsLower(b: Byte) {
    0x61 <= b <= 0x7A
  }

  function FlipCase(b: Byte): (c: Byte)
    ensures IsAscii(b) <==> IsAscii(c)
    ensures c != b ==> IsAscii(b) && (IsUpper(b) <==> IsLower(c)) && (IsLower(b) <==> IsUpper(c))
  {
    if IsUpper(b) then b + 0x20 else if IsLower(b) then b - 0x20 else b
  }

  /** The place visited after i: a random one that is more than twice as far on. */
  function NextPlace(n: nat, i: nat, draw: nat -> nat): nat
    requires i < n
  {
    i + (i + 1) + draw(i + 1) % (n - i)
  }

  /** From i on the draws lead to place k. */
  predicate Visits(n: nat, i: nat, draw: nat -> nat, k: nat)
    decreases if i < n then n - i else 0
  {
    i < n && (k == i || Visits(n, NextPlace(n, i, draw), draw, k))
  }

  /** The draws choose place k of n. */
  predicate Chosen(n: nat, draw: nat -> nat, k: nat) {
    Visits(n, draw(0) % (n + 1), draw, k)
  }

  lemma {:induction false} VisitsOnward(n: nat, i: nat, draw: nat -> nat, k: nat)
    requires Visits(n, i, draw, k)
    ensures i <= k < n && (k > i ==> k > 2 * i)
    decreases if i < n then n - i else 0
  {
    if k != i { VisitsOnward(n, NextPlace(n, i, draw), draw, k); }
  }

  /** Flip the case of the ASCII letters at the places chosen, which leaves every other byte alone. */
  method ChangeCase(s: Bytes, draw: nat -> nat) returns (r: Bytes)
    requires Valid(s)
    ensures Valid(r) && |r| == |s|
    ensures forall k | 0 <= k < |s| :: r[k] == if Chosen(|s|, draw, k) then FlipCase(s[k]) else s[k]
  {
    hide Valid;
    r := s;
    var i := draw(0) % (|s| + 1);
    forall k | 0 <= k < i ensures !Chosen(|s|, draw, k) {
      if Chosen(|s|, draw, k) { VisitsOnward(|s|, i, draw, k); }
    }
    while i < |s|
      invariant Valid(r) && |r| == |s|
      invariant forall k | 0 <= k < |s| ::
        Chosen(|s|, draw, k) <==> Visits(|s|, i, draw, k) || (k < i && Chosen(|s|, draw, k))
      invariant forall k | 0 <= k < |s| :: r[k] == if k < i && Chosen(|s|, draw, k) then FlipCase(s[k]) else s[k]
      decreases |s| - i
    {
      ghost var i' := NextPlace(|s|, i, draw);
      forall k | 0 <= k < |s| ensures Visits(|s|, i, draw, k) <==> k == i || Visits(|s|, i', draw, k) {}
      forall k | i < k < i' && k < |s| ensures !Chosen(|s|, draw, k) {
        if Visits(|s|, i', draw, k) { VisitsOnward(|s|, i', draw, k); }
      }
      if FlipCase(r[i]) != r[i] {
        AsciiReplaced(r, i, FlipCase(r[i]));
        r := r[i := FlipCase(r[i])];
      }
      i := i + (i + 1) + draw(i + 1) % (|s| - i);
    }
  }

  /** Places each of which is more than twice as far on as the one before. */
  predicate Doubling(ps: seq<nat>, n: nat) {
    (forall j | 0 <= j < |ps| :: ps[j] < n) && forall j | 0 < j < |ps| :: ps[j] > 2 * ps[j - 1]
  }

  /** The first of the places that lies beyond i, or n if none does. */
  function Beyond(ps: seq<nat>, n: nat, i: int): nat {
    if ps == [] then n else if ps[0] > i then ps[0] else Beyond(ps[1..], n, i)
  }

  /** Draws that lead from each of the places to the next. */
  function Leading(ps: seq<nat>, n: nat): nat -> nat {
    (x: nat) =>
      if x == 0 then Beyond(ps, n, -1)
      else if Beyond(ps, n, x - 1) > 2 * x - 1 then Beyond(ps, n, x - 1) - (2 * x - 1) else 0
  }

  lemma {:induction false} BeyondIs(ps: seq<nat>, n: nat, m: nat)
    requires Doubling(ps, n) && m <= |ps|
    ensures Beyond(ps, n, if m == 0 then -1 else ps[m - 1]) == if m < |ps| then ps[m] else n
    decreases |ps|
  {
    if m > 0 {
      Increasing(ps, n, m - 1);
      BeyondStep(ps, n, m);
    }
  }

  lemma {:induction false} Increasing(ps: seq<nat>, n: nat, j: nat)
    requires Doubling(ps, n) && j < |ps|
    ensures ps[0] <= ps[j]
  {
    if j > 0 { Increasing(ps, n, j - 1); }
  }

  lemma {:induction false} BeyondStep(ps: seq<nat>, n: nat, m: nat)
    requires Doubling(ps, n) && 0 < m <= |ps|
    ensures Beyond(ps, n, ps[m - 1]) == if m < |ps| then ps[m] else n
    decreases |ps|
  {
    Increasing(ps, n, m - 1);
    if m > 1 {
      BeyondStep(ps[1..], n, m - 1);
    } else {
      assert |ps| > 1 ==> ps[1..][0] == ps[1];
    }
  }

  lemma LeadsToNext(ps: seq<nat>, n: nat, m: nat)
    requires Doubling(ps, n) && m < |ps|
    ensures var next := NextPlace(n, ps[m], Leading(ps, n)); if m + 1 < |ps| then next == ps[m + 1] else next >= n
  {
    hide Beyond;
    BeyondIs(ps, n, m + 1);
    var i := ps[m];
    var next := Beyond(ps, n, i);
    if next > 2 * i + 1 { Remainder(next - (2 * i + 1), n - i); } else { Remainder(0, n - i); }
  }

  lemma {:induction false} LeadsThrough(ps: seq<nat>, n: nat, m: nat, k: nat)
    requires Doubling(ps, n) && m < |ps|
    ensures Visits(n, ps[m], Leading(ps, n), k) <==> k in ps[m..]
    decreases |ps| - m
  {
    hide Visits, NextPlace, Leading;
    LeadsToNext(ps, n, m);
    assert ps[m..] == [ps[m]] + ps[m + 1..];
    VisitsStep(n, ps[m], Leading(ps, n), k);
    if m + 1 < |ps| {
      LeadsThrough(ps, n, m + 1, k);
    } else {
      VisitsNothing(n, NextPlace(n, ps[m], Leading(ps, n)), Leading(ps, n), k);
    }
  }

  lemma VisitsStep(n: nat, i: nat, draw: nat -> nat, k: nat)
    requires i < n
    ensures Visits(n, i, draw, k) <==> k == i || Visits(n, NextPlace(n, i, draw), draw, k)
  {
  }

  lemma VisitsNothing(n: nat, i: nat, draw: nat -> nat, k: nat)
    requires i >= n
    ensures !Visits(n, i, draw, k)
  {
  }

  lemma Remainder(a: nat, b: nat)
    requires a < b
    ensures a % b == a
  {
  }

  ghost predicate ChoosesExactly(n: nat, draw: nat -> nat, ps: seq<nat>) {
    forall k: nat :: Chosen(n, draw, k) <==> k in ps
  }

  /** Any such places are those that some draws choose. */
  lemma PlacesAreDrawn(ps: seq<nat>, n: nat)
    requires Doubling(ps, n)
    ensures exists draw :: ChoosesExactly(n, draw, ps)
  {
    hide Visits;
    var draw := Leading(ps, n);
    BeyondIs(ps, n, 0);
    forall k: nat ensures Chosen(n, draw, k) <==> k in ps {
      if ps == [] {
        VisitsNothing(n, n, draw, k);
      } else {
        LeadsThrough(ps, n, 0, k);
        assert ps[0..] == ps;
      }
    }
    assert ChoosesExactly(n, draw, ps);
  }
}
