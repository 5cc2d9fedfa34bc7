/**
 The builtin functions on arrays and dictionaries: what they compute, the loops that compute it, and
 the laws that make a dictionary a finite map.

 A dictionary is the sequence of its entries, in order; nothing stops its keys from repeating.
 */
module Containers {
  import opened Results
  import opened Numbers
  import opened VariantTypes

  // ----- arrays -----------------------------------------------------------------------------------

  function InsertAt<T>(a: seq<T>, index: nat, v: T): seq<T> {
    var k := Min(index, |a|);
    a[..k] + [v] + a[k..]
  }

  function RemoveAt<T>(a: seq<T>, index: nat): seq<T> {
    if a == [] then [] else
      var k := Min(index, |a| - 1);
      a[..k] + a[k + 1..]
  }

  /** arrayInsert(): one pass over the array, counting the index down and letting it wrap. */
  method ArrayInsert<T>(a: seq<T>, index: nat, v: T) returns (r: seq<T>)
    requires index < GUINT_RANGE && |a| < GUINT_RANGE
    ensures r == InsertAt(a, index, v)
  {
    var counter := Min(index, |a|);
    ghost var k := counter;
    r := [];
    for i := 0 to |a|
      invariant counter == if i <= k then k - i else GUINT_RANGE - (i - k)
      invariant r == if i <= k then a[..i] else a[..k] + [v] + a[k..i]
    {
      var here := counter == 0;
      counter := Decrement(counter);
      assert a[..i + 1] == a[..i] + [a[i]];
      assert i > k ==> a[k..i + 1] == a[k..i] + [a[i]];
      if here {
        r := r + [v];
      }
      r := r + [a[i]];
    }
    if counter == 0 {
      r := r + [v];
    }
  }

  /** arrayRemove(): on an empty array the clamped index is meaningless, but the loop never looks at it. */
  method ArrayRemove<T>(a: seq<T>, index: nat) returns (r: seq<T>)
    requires index < GUINT_RANGE && |a| < GUINT_RANGE
    ensures r == RemoveAt(a, index)
  {
    var counter := if |a| == 0 then index else Min(index, |a| - 1);
    ghost var k := counter;
    r := [];
    for i := 0 to |a|
      invariant counter == if i <= k then k - i else GUINT_RANGE - (i - k)
      invariant r == if i <= k then a[..i] else a[..k] + a[k + 1..i]
    {
      var here := counter == 0;
      counter := Decrement(counter);
      assert a[..i + 1] == a[..i] + [a[i]];
      assert i > k ==> a[k + 1..i + 1] == a[k + 1..i] + [a[i]];
      if !here {
        r := r + [a[i]];
      }
    }
  }

  /** Removing at an index undoes inserting at it, even where both clamp the index. */
  lemma RemoveUndoesInsert<T>(a: seq<T>, index: nat, v: T)
    ensures RemoveAt(InsertAt(a, index, v), index) == a
  {
    var k := Min(index, |a|);
    var b := InsertAt(a, index, v);
    assert Min(index, |b| - 1) == k;
    assert b[..k] == a[..k] && b[k + 1..] == a[k..];
  }

  // ----- dictionaries -----------------------------------------------------------------------------

  predicate IsDict(d: seq<Value>) {
    forall i | 0 <= i < |d| :: d[i].VEntry?
  }

  function Count(d: seq<Value>, k: Value): nat
    requires IsDict(d)
  {
    if d == [] then 0 else (if d[0].key == k then 1 else 0) + Count(d[1..], k)
  }

  function Keys(d: seq<Value>): (ks: seq<Value>)
    requires IsDict(d)
    ensures |ks| == |d| && forall i | 0 <= i < |d| :: ks[i] == d[i].key
  {
    seq(|d|, i requires 0 <= i < |d| => d[i].key)
  }

  predicate UniqueKeys(d: seq<Value>)
    requires IsDict(d)
  {
    forall i, j | 0 <= i < j < |d| :: d[i].key != d[j].key
  }

  function Replace(d: seq<Value>, k: Value, v: Value): (r: seq<Value>)
    requires IsDict(d)
    ensures IsDict(r) && |r| == |d|
    ensures forall i | 0 <= i < |d| :: r[i] == if d[i].key == k then VEntry(k, v) else d[i]
  {
    seq(|d|, i requires 0 <= i < |d| => if d[i].key == k then VEntry(k, v) else d[i])
  }

  /** dictSet(): overwrite in place or append, and fail an assertion on meeting the key again. */
  function DictSet(d: seq<Value>, k: Value, v: Value): Result<seq<Value>>
    requires IsDict(d)
  {
    if Count(d, k) >= 2 then Fail(DuplicateKey)
    else Ok(Replace(d, k, v) + if Count(d, k) == 0 then [VEntry(k, v)] else [])
  }

  /** dictUnset(). */
  function DictUnset(d: seq<Value>, k: Value): (r: seq<Value>)
    requires IsDict(d)
    ensures IsDict(r)
    ensures forall e :: e in r <==> e in d && e.key != k
  {
    if d == [] then [] else (if d[0].key != k then [d[0]] else []) + DictUnset(d[1..], k)
  }

  /** dictGet(): the first match wins. */
  function DictGet(d: seq<Value>, k: Value, default: Value): Value
    requires IsDict(d)
  {
    if d == [] then default else if d[0].key == k then d[0].val else DictGet(d[1..], k, default)
  }

  method DictSetLoop(d: seq<Value>, k: Value, v: Value) returns (r: Result<seq<Value>>)
    requires IsDict(d)
    ensures r == DictSet(d, k, v)
  {
    var found := false;
    var builder := [];
    for i := 0 to |d|
      invariant builder == Replace(d[..i], k, v)
      invariant Count(d[..i], k) == if found then 1 else 0
    {
      CountSnoc(d[..i], d[i], k);
      assert d[..i + 1] == d[..i] + [d[i]];
      ReplaceSnoc(d[..i], d[i], k, v);
      if d[i].key == k {
        if found {
          CountPrefix(d, i + 1, k);
          return Fail(DuplicateKey);
        }
        found := true;
        builder := builder + [VEntry(k, v)];
      } else {
        builder := builder + [d[i]];
      }
    }
    assert d[..|d|] == d;
    assert Replace(d, k, v) + [] == Replace(d, k, v);
    if !found {
      builder := builder + [VEntry(k, v)];
    }
    r := Ok(builder);
  }

  method DictUnsetLoop(d: seq<Value>, k: Value) returns (r: seq<Value>)
    requires IsDict(d)
    ensures r == DictUnset(d, k)
  {
    r := [];
    for i := 0 to |d|
      invariant r == DictUnset(d[..i], k)
    {
      UnsetSnoc(d[..i], d[i], k);
      assert d[..i + 1] == d[..i] + [d[i]];
      if d[i].key != k {
        r := r + [d[i]];
      }
    }
    assert d[..|d|] == d;
  }

  method DictGetLoop(d: seq<Value>, k: Value, default: Value) returns (r: Value)
    requires IsDict(d)
    ensures r == DictGet(d, k, default)
  {
    var output: Option<Value> := None;
    var i := 0;
    while output.None? && i < |d|
      invariant 0 <= i <= |d|
      invariant DictGet(d, k, default) == if output.Some? then output.value else DictGet(d[i..], k, default)
      decreases |d| - i
    {
      if d[i].key == k {
        output := Some(d[i].val);
      }
      i := i + 1;
    }
    r := if output.None? then default else output.value;
  }

  lemma {:induction false} CountSplit(d: seq<Value>, e: seq<Value>, k: Value)
    requires IsDict(d) && IsDict(e)
    ensures Count(d + e, k) == Count(d, k) + Count(e, k)
  {
    if d == [] {
      assert d + e == e;
    } else {
      assert (d + e)[1..] == d[1..] + e;
      CountSplit(d[1..], e, k);
    }
  }

  lemma CountPrefix(d: seq<Value>, i: nat, k: Value)
    requires IsDict(d) && i <= |d|
    ensures Count(d[..i], k) <= Count(d, k)
  {
    assert d == d[..i] + d[i..];
    CountSplit(d[..i], d[i..], k);
  }

  lemma CountSnoc(d: seq<Value>, e: Value, k: Value)
    requires IsDict(d) && e.VEntry?
    ensures Count(d + [e], k) == Count(d, k) + if e.key == k then 1 else 0
  {
    CountSplit(d, [e], k);
  }

  lemma ReplaceSnoc(d: seq<Value>, e: Value, k: Value, v: Value)
    requires IsDict(d) && e.VEntry?
    ensures Replace(d + [e], k, v) == Replace(d, k, v) + [if e.key == k then VEntry(k, v) else e]
  {
  }

  lemma {:induction false} UnsetSnoc(d: seq<Value>, e: Value, k: Value)
    requires IsDict(d) && e.VEntry?
    ensures DictUnset(d + [e], k) == DictUnset(d, k) + if e.key != k then [e] else []
  {
    if d == [] {
      assert DictUnset([e][1..], k) == [];
    } else {
      assert (d + [e])[1..] == d[1..] + [e];
      UnsetSnoc(d[1..], e, k);
    }
  }

  // ----- dictionaries as finite maps --------------------------------------------------------------

  /** The map a dictionary stands for: of repeated keys, the first counts. */
  function ToMap(d: seq<Value>): map<Value, Value>
    requires IsDict(d)
  {
    if d == [] then map[] else ToMap(d[1..])[d[0].key := d[0].val]
  }

  lemma {:induction false} MapKeys(d: seq<Value>, k: Value)
    requires IsDict(d)
    ensures k in ToMap(d) <==> Count(d, k) >= 1
  {
    if d != [] {
      MapKeys(d[1..], k);
    }
  }

  /** The dictSet() assertion fails exactly when the dictionary holds the key twice. */
  lemma {:induction false} CountTwice(d: seq<Value>, k: Value)
    requires IsDict(d)
    ensures Count(d, k) >= 1 <==> exists i :: 0 <= i < |d| && d[i].key == k
    ensures Count(d, k) >= 2 <==> exists i, j :: 0 <= i < j < |d| && d[i].key == k && d[j].key == k
  {
    if d != [] {
      var t := d[1..];
      CountTwice(t, k);
      assert forall i | 0 <= i < |t| :: t[i] == d[i + 1];
      if Count(d, k) >= 1 && d[0].key != k {
        var i :| 0 <= i < |t| && t[i].key == k;
        assert d[i + 1].key == k;
      }
      if i :| 0 <= i < |d| && d[i].key == k {
        if i > 0 { assert t[i - 1].key == k; }
      }
      if Count(d, k) >= 2 {
        if d[0].key == k {
          var i :| 0 <= i < |t| && t[i].key == k;
          assert d[0].key == k && d[i + 1].key == k;
        } else {
          var i, j :| 0 <= i < j < |t| && t[i].key == k && t[j].key == k;
          assert d[i + 1].key == k && d[j + 1].key == k;
        }
      }
      if i, j :| 0 <= i < j < |d| && d[i].key == k && d[j].key == k {
        assert t[j - 1].key == k;
        if i > 0 { assert t[i - 1].key == k && t[j - 1].key == k; }
      }
    }
  }

  lemma {:induction false} ReplaceMap(d: seq<Value>, k: Value, v: Value)
    requires IsDict(d)
    ensures ToMap(Replace(d, k, v)) == if Count(d, k) == 0 then ToMap(d) else ToMap(d)[k := v]
  {
    if d != [] {
      ReplaceMap(d[1..], k, v);
      var rest, rest' := ToMap(d[1..]), ToMap(Replace(d[1..], k, v));
      assert Replace(d, k, v)[1..] == Replace(d[1..], k, v);
      if d[0].key == k {
        assert rest'[k := v] == rest[k := d[0].val][k := v];
      } else {
        UpdatesCommute(rest, k, v, d[0].key, d[0].val);
      }
    }
  }

  lemma UpdatesCommute(m: map<Value, Value>, k: Value, v: Value, l: Value, w: Value)
    requires k != l
    ensures m[k := v][l := w] == m[l := w][k := v]
  {
  }

  lemma {:induction false} AppendMap(d: seq<Value>, k: Value, v: Value)
    requires IsDict(d)
    ensures ToMap(d + [VEntry(k, v)]) == if k in ToMap(d) then ToMap(d) else ToMap(d)[k := v]
  {
    if d == [] {
      assert ([VEntry(k, v)])[1..] == [];
      assert d + [VEntry(k, v)] == [VEntry(k, v)];
    } else {
      assert (d + [VEntry(k, v)])[1..] == d[1..] + [VEntry(k, v)];
      AppendMap(d[1..], k, v);
      if d[0].key != k { UpdatesCommute(ToMap(d[1..]), k, v, d[0].key, d[0].val); }
    }
  }

  /** dictSet() fails exactly on a repeated key, so never on a dictionary with unique keys. */
  lemma DictSetFails(d: seq<Value>, k: Value, v: Value)
    requires IsDict(d)
    ensures DictSet(d, k, v).Fail? <==> exists i, j :: 0 <= i < j < |d| && d[i].key == k && d[j].key == k
    ensures UniqueKeys(d) ==> DictSet(d, k, v).Ok?
  {
    CountTwice(d, k);
  }

  /** dictSet() is map update. */
  lemma DictSetIsUpdate(d: seq<Value>, k: Value, v: Value)
    requires IsDict(d) && DictSet(d, k, v).Ok?
    ensures IsDict(DictSet(d, k, v).value)
    ensures ToMap(DictSet(d, k, v).value) == ToMap(d)[k := v]
  {
    MapKeys(d, k);
    ReplaceMap(d, k, v);
    var r := Replace(d, k, v);
    if Count(d, k) == 0 {
      AppendMap(r, k, v);
    } else {
      assert r + [] == r;
    }
  }

  /** dictSet() leaves every other entry in its place, and appends a new key at the end. */
  lemma DictSetKeepsOrder(d: seq<Value>, k: Value, v: Value)
    requires IsDict(d) && DictSet(d, k, v).Ok?
    ensures IsDict(DictSet(d, k, v).value)
    ensures Keys(DictSet(d, k, v).value) == Keys(d) + (if Count(d, k) == 0 then [k] else [])
    ensures forall i | 0 <= i < |d| && d[i].key != k :: DictSet(d, k, v).value[i] == d[i]
  {
    CountTwice(d, k);
  }

  /** dictSet() keeps keys unique. */
  lemma DictSetKeepsUnique(d: seq<Value>, k: Value, v: Value)
    requires IsDict(d) && UniqueKeys(d) && DictSet(d, k, v).Ok?
    ensures IsDict(DictSet(d, k, v).value) && UniqueKeys(DictSet(d, k, v).value)
  {
    hide DictSet;
    DictSetKeepsOrder(d, k, v);
    CountTwice(d, k);
    var e := DictSet(d, k, v).value;
    forall i, j | 0 <= i < j < |e| ensures e[i].key != e[j].key {
      assert e[i].key == Keys(e)[i] && e[j].key == Keys(e)[j] && Keys(e) == Keys(d) + Keys(e)[|d|..];
    }
  }

  /** dictUnset() is map removal, whether or not keys repeat. */
  lemma {:induction false} DictUnsetIsRemoval(d: seq<Value>, k: Value)
    requires IsDict(d)
    ensures ToMap(DictUnset(d, k)) == ToMap(d) - {k}
  {
    if d != [] {
      var t := d[1..];
      DictUnsetIsRemoval(t, k);
      UpdateThenRemove(ToMap(t), d[0].key, d[0].val, k);
      var rest := DictUnset(t, k);
      if d[0].key == k {
        assert DictUnset(d, k) == rest;
      } else {
        assert DictUnset(d, k) == [d[0]] + rest;
        assert DictUnset(d, k)[1..] == rest;
      }
    }
  }

  lemma UpdateThenRemove(m: map<Value, Value>, l: Value, w: Value, k: Value)
    ensures m[l := w] - {k} == if l == k then m - {k} else (m - {k})[l := w]
  {
  }

  lemma {:induction false} DictUnsetKeepsUnique(d: seq<Value>, k: Value)
    requires IsDict(d) && UniqueKeys(d)
    ensures UniqueKeys(DictUnset(d, k))
  {
    if d != [] {
      var t := d[1..];
      DictUnsetKeepsUnique(t, k);
      var rest := DictUnset(t, k);
      forall i | 0 <= i < |rest| ensures rest[i].key != d[0].key {
        assert rest[i] in t;
      }
    }
  }

  /** dictGet() is map lookup, whether or not keys repeat. */
  lemma {:induction false} DictGetIsLookup(d: seq<Value>, k: Value, default: Value)
    requires IsDict(d)
    ensures DictGet(d, k, default) == if k in ToMap(d) then ToMap(d)[k] else default
  {
    if d != [] {
      DictGetIsLookup(d[1..], k, default);
    }
  }

  /** Reading back what was written, at the key written and at every other. */
  lemma ReadOverWrite(d: seq<Value>, k: Value, v: Value, k': Value, default: Value)
    requires IsDict(d) && DictSet(d, k, v).Ok?
    ensures IsDict(DictSet(d, k, v).value)
    ensures DictGet(DictSet(d, k, v).value, k', default) == if k' == k then v else DictGet(d, k', default)
  {
    DictSetIsUpdate(d, k, v);
    DictGetIsLookup(DictSet(d, k, v).value, k', default);
    DictGetIsLookup(d, k', default);
  }

  /** Unsetting a key forgets that it was just set, entry order included. */
  lemma UnsetForgetsSet(d: seq<Value>, k: Value, v: Value)
    requires IsDict(d) && DictSet(d, k, v).Ok?
    ensures IsDict(DictSet(d, k, v).value)
    ensures DictUnset(DictSet(d, k, v).value, k) == DictUnset(d, k)
  {
    UnsetReplaced(d, k, v);
    if Count(d, k) == 0 {
      UnsetSnoc(Replace(d, k, v), VEntry(k, v), k);
    } else {
      assert DictSet(d, k, v).value == Replace(d, k, v);
    }
  }

  lemma {:induction false} UnsetReplaced(d: seq<Value>, k: Value, v: Value)
    requires IsDict(d)
    ensures DictUnset(Replace(d, k, v), k) == DictUnset(d, k)
  {
    if d != [] {
      UnsetReplaced(d[1..], k, v);
      assert Replace(d, k, v)[1..] == Replace(d[1..], k, v);
    }
  }
}
