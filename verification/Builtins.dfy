/**
 The remaining builtin functions as the loops they are, and the laws that tie the builtins to one another.
 */
module Builtins {
  import opened Results
  import opened VariantTypes
  import opened Containers
  import opened Language
  import opened Evaluator
  import opened EffectFree

  // ----- loops ------------------------------------------------------------------------------------

  /** keys(). */
  method CollectKeys(d: seq<Value>) returns (ks: seq<Value>)
    requires IsDict(d)
    ensures ks == Keys(d)
  {
    ks := [];
    for i := 0 to |d|
      invariant ks == Keys(d)[..i]
    {
      ks := ks + [d[i].key];
    }
  }

  /** inArray(), which stops at the first match. */
  method Search(needle: Value, haystack: seq<Value>) returns (found: bool)
    ensures found <==> needle in haystack
  {
    found := false;
    var i := 0;
    while !found && i < |haystack|
      invariant 0 <= i <= |haystack|
      invariant found <==> needle in haystack[..i]
    {
      found := needle == haystack[i];
      assert haystack[..i + 1] == haystack[..i] + [haystack[i]];
      i := i + 1;
    }
    if !found { assert haystack[..i] == haystack; }
  }

  /** dictToTupleArray(). */
  method CollectTuples(d: seq<Value>) returns (ts: seq<Value>)
    requires IsDict(d)
    ensures ts == EntriesToTuples(d)
  {
    ts := [];
    for i := 0 to |d|
      invariant ts == EntriesToTuples(d)[..i]
    {
      ts := ts + [VTuple([d[i].key, d[i].val])];
    }
  }

  predicate AllStrings(parts: seq<Value>) {
    forall i | 0 <= i < |parts| :: parts[i].VString?
  }

  /** stringJoin(): a separator before every string but the first. */
  method JoinStrings(separator: string, parts: seq<Value>) returns (joined: string)
    requires AllStrings(parts)
    ensures joined == Join(separator, parts)
  {
    joined := "";
    var first := true;
    for i := 0 to |parts|
      invariant first <==> i == 0
      invariant joined == Join(separator, parts[..i])
    {
      JoinSnoc(separator, parts[..i], parts[i]);
      assert parts[..i + 1] == parts[..i] + [parts[i]];
      if !first {
        joined := joined + separator;
      }
      joined := joined + parts[i].s;
      first := false;
    }
    assert parts[..|parts|] == parts;
  }

  lemma JoinSnoc(separator: string, parts: seq<Value>, last: Value)
    requires AllStrings(parts) && last.VString?
    ensures Join(separator, parts + [last]) ==
      if parts == [] then last.s else Join(separator, parts) + separator + last.s
  {
    if parts == [] {
      assert parts + [last] == [last];
    } else {
      JoinSplits(separator, parts, [last]);
    }
  }

  // ----- laws -------------------------------------------------------------------------------------

  /** Joining in two goes, with the separator between, is joining in one. */
  lemma {:induction false} JoinSplits(separator: string, a: seq<Value>, b: seq<Value>)
    requires AllStrings(a) && AllStrings(b) && a != [] && b != []
    ensures Join(separator, a + b) == Join(separator, a) + separator + Join(separator, b)
    decreases |a|
  {
    assert (a + b)[1..] == a[1..] + b && (a + b)[0] == a[0];
    if |a| == 1 {
      assert a[1..] + b == b;
    } else {
      JoinSplits(separator, a[1..], b);
      Reassociate(a[0].s + separator, Join(separator, a[1..]), separator, Join(separator, b));
    }
  }

  lemma Reassociate(x: string, y: string, z: string, w: string)
    ensures x + (y + z + w) == (x + y) + z + w
  {
  }

  /** What arrayInsert() put in is what arrayGet() reads, and everything else is where it was or one further on. */
  lemma InsertedIsRead(elem: Ty, a: seq<Value>, i: nat, v: Value, j: nat, default: Value)
    requires TypeOf(v) == elem && forall k | 0 <= k < |a| :: TypeOf(a[k]) == elem
    ensures var r := ApplyFunction(FArrayInsert, TArray(elem), VTuple([VArray(elem, a), VInt(UInt32, i), v]));
      && r.Ok?
      && var at := if i < |a| then i else |a|;
         ApplyFunction(FArrayGet, elem, VTuple([r.value, VInt(UInt32, j), default])) ==
           Ok(if j == at then v else if j < at then a[j] else if j <= |a| then a[j - 1] else default)
  {
    hide TypeOf, InsertAt;
    var b := InsertAt(a, i, v);
    InsertedItem(elem, a, i, v, j);
    var p := VTuple([VArray(elem, a), VInt(UInt32, i), v]);
    assert p.items[0].items == a;
    var q := VTuple([VArray(elem, b), VInt(UInt32, j), default]);
    assert q.items[0].items == b;
  }

  lemma InsertedItem(elem: Ty, a: seq<Value>, i: nat, v: Value, j: nat)
    requires TypeOf(v) == elem && forall k | 0 <= k < |a| :: TypeOf(a[k]) == elem
    ensures Build(TArray(elem), InsertAt(a, i, v)) == Ok(VArray(elem, InsertAt(a, i, v)))
    ensures |InsertAt(a, i, v)| == |a| + 1
    ensures var at := if i < |a| then i else |a|;
      j <= |a| ==> InsertAt(a, i, v)[j] == if j == at then v else if j < at then a[j] else a[j - 1]
  {
    hide TypeOf;
  }

  /** A key is found among the keys of a dictionary after it is set, and not after it is unset. */
  lemma KeysFollowUpdates(d: seq<Value>, k: Value, v: Value, l: Value)
    requires IsDict(d) && DictSet(d, k, v).Ok?
    ensures IsDict(DictSet(d, k, v).value)
    ensures l in Keys(DictSet(d, k, v).value) <==> l == k || l in Keys(d)
    ensures l in Keys(DictUnset(d, k)) <==> l != k && l in Keys(d)
  {
    DictSetKeepsOrder(d, k, v);
    CountTwice(d, k);
    KeysAfterRemoval(d, k, l);
  }

  lemma KeysAfterRemoval(d: seq<Value>, k: Value, l: Value)
    requires IsDict(d)
    ensures l in Keys(DictUnset(d, k)) <==> l != k && l in Keys(d)
  {
    var e := DictUnset(d, k);
    if l in Keys(e) {
      var i :| 0 <= i < |e| && Keys(e)[i] == l;
      assert e[i] in e;
      var j :| 0 <= j < |d| && d[j] == e[i];
      assert Keys(d)[j] == l;
    }
    if l != k && l in Keys(d) {
      var i :| 0 <= i < |d| && Keys(d)[i] == l;
      assert d[i] in e;
      var j :| 0 <= j < |e| && e[j] == d[i];
      assert Keys(e)[j] == l;
    }
  }

  /** The heads of the tuples of a dictionary are its keys, in order. */
  lemma TupleHeadsAreKeys(k: Ty, w: Ty, d: seq<Value>, i: nat)
    requires IsDict(d) && i < |d| && forall j | 0 <= j < |d| :: TypeOf(d[j].key) == k && TypeOf(d[j].val) == w
    ensures var r := ApplyFunction(FDictToTupleArray, TArray(TTuple([k, w])), VTuple([VArray(TEntry(k, w), d)]));
      && r.Ok? && r.value.VArray? && |r.value.items| == |d|
      && ApplyFunction(FStructHead, k, VTuple([r.value.items[i]])) == Ok(Keys(d)[i])
  {
    var ts := EntriesToTuples(d);
    forall j | 0 <= j < |ts| ensures TypeOf(ts[j]) == TTuple([k, w]) {
      assert TypeOf(ts[j]).items == [k, w];
    }
    assert Build(TArray(TTuple([k, w])), ts) == Ok(VArray(TTuple([k, w]), ts));
    var p := VTuple([VArray(TEntry(k, w), d)]);
    assert p.items[0].items == d;
  }

  /** pairKeys() keeps the keys it is given, each evaluation pairing one, and fuzzing affects only the values. */
  lemma {:induction false} PairedKeys(p: Expr, ks: seq<Value>, env: Env, st: Fuzz)
    requires EvalPairList(p, ks, env, st).res.Ok?
    ensures var d := EvalPairList(p, ks, env, st).res.value;
      IsDict(d) && Keys(d) == ks
    decreases |ks|
  {
    hide Eval;
    if ks != [] {
      var params := Eval(p, env, st);
      PairedKeys(p, ks[1..], env, params.st);
      var rest := EvalPairList(p, ks[1..], env, params.st).res.value;
      var d := [VEntry(ks[0], params.res.value.items[1])] + rest;
      assert d == EvalPairList(p, ks, env, st).res.value;
      assert forall i | 0 < i < |d| :: d[i] == rest[i - 1] && Keys(d)[i] == Keys(rest)[i - 1];
      assert ks == [ks[0]] + ks[1..];
    }
  }

  function Paired(ks: seq<Value>, x: Value): seq<Value> {
    seq(|ks|, i requires 0 <= i < |ks| => VEntry(ks[i], x))
  }

  /** Without fuzzing every key is paired with the one value of the expression. */
  lemma {:induction false} PairedValues(p: Expr, ks: seq<Value>, env: Env, x: Value)
    requires Plain(p, env).Ok? && Args(Plain(p, env).value, 2) && Plain(p, env).value.items[1] == x
    ensures EvalPairList(p, ks, env, QUIET).res == Ok(Paired(ks, x))
    decreases |ks|
  {
    hide Eval;
    if ks != [] {
      DisabledIsCalm(p, QUIET);
      CalmEval(p, env, QUIET);
      PairedValues(p, ks[1..], env, x);
      assert [VEntry(ks[0], x)] + Paired(ks[1..], x) == Paired(ks, x);
    } else {
      assert Paired(ks, x) == [];
    }
  }

  // ----- container literals without fuzzing -------------------------------------------------------

  /** Without fuzzing a struct literal is the tuple of its items' values. */
  lemma {:induction false} PlainStruct(es: seq<Expr>, env: Env)
    requires EvalAll(es, env, QUIET).res.Ok?
    ensures var vs := EvalAll(es, env, QUIET).res.value;
      |vs| == |es| && forall i | 0 <= i < |es| :: Plain(es[i], env) == Ok(vs[i])
    decreases es
  {
    hide Eval;
    if es != [] {
      DisabledIsCalm(es[0], QUIET);
      CalmEval(es[0], env, QUIET);
      PlainStruct(es[1..], env);
    }
  }

  /** Without fuzzing an array literal holds the values of its items, one each and in order. */
  lemma {:induction false} PlainArray(id: nat, elem: Ty, es: seq<Expr>, env: Env)
    requires EvalElements(id, elem, es, env, QUIET).res.Ok?
    ensures var vs := EvalElements(id, elem, es, env, QUIET).res.value;
      |vs| == |es| && forall i | 0 <= i < |es| :: Plain(es[i], env) == Ok(vs[i])
    decreases es
  {
    hide Eval;
    if es != [] {
      PlainElement(id, es[0], env);
      PlainArray(id, elem, es[1..], env);
    }
  }

  lemma PlainElement(id: nat, e: Expr, env: Env)
    requires EvalElement(id, e, env, QUIET).res.Ok?
    ensures Plain(e, env).Ok? && EvalElement(id, e, env, QUIET) == Out(Ok([Plain(e, env).value]), QUIET)
  {
    hide Eval;
    DisabledIsCalm(e, QUIET);
    CalmEval(e, env, QUIET);
  }

  /** Without fuzzing a dictionary literal holds its entries, one each and in order. */
  lemma {:induction false} PlainDict(id: nat, elem: Ty, es: seq<Entry>, env: Env)
    requires EvalEntries(id, elem, es, env, QUIET).res.Ok?
    ensures var vs := EvalEntries(id, elem, es, env, QUIET).res.value;
      |vs| == |es| && forall i | 0 <= i < |es| ::
        vs[i].VEntry? && Plain(es[i].key, env) == Ok(vs[i].key) && Plain(es[i].val, env) == Ok(vs[i].val)
    decreases es
  {
    hide Eval;
    if es != [] {
      PlainEntry(id, es[0], env);
      PlainDict(id, elem, es[1..], env);
    }
  }

  lemma PlainEntry(id: nat, entry: Entry, env: Env)
    requires EvalEntry(id, entry, env, QUIET).res.Ok?
    ensures Plain(entry.key, env).Ok? && Plain(entry.val, env).Ok?
    ensures EvalEntry(id, entry, env, QUIET) ==
      Out(Ok([VEntry(Plain(entry.key, env).value, Plain(entry.val, env).value)]), QUIET)
  {
    hide Eval;
    DisabledIsCalm(entry.key, QUIET);
    DisabledIsCalm(entry.val, QUIET);
    CalmEval(entry.key, env, QUIET);
    CalmEval(entry.val, env, QUIET);
  }
}
