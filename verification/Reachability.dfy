/**
 The reachability analysis of a machine's states: a greedy search that pops the most reachable
 unvisited state and relaxes its transitions, over a flattened matrix of one-step reachabilities.

 Reachabilities are ordered: unreachable, then possibly reachable, then reachable. A path is as
 reachable as its least reachable transition, and a state as its most reachable path.
 */
module Reachability {
  import opened Numbers
  import opened Sequences

  const UNREACHABLE: nat := 0
  const POSSIBLY_REACHABLE: nat := 1
  const REACHABLE: nat := 2

  /** A transition between two states, with or without preconditions. */
  datatype Edge = Edge(from: nat, to: nat, unconditional: bool) {
    function Level(): nat {
      if unconditional then REACHABLE else POSSIBLY_REACHABLE
    }
  }

  // ----- paths ------------------------------------------------------------------------------------

  predicate Within(es: seq<Edge>, n: nat) {
    forall e | e in es :: e.from < n && e.to < n
  }

  /** The best of the parallel transitions between two states. */
  function EdgeLevel(es: seq<Edge>, f: nat, t: nat): nat {
    if es == [] then UNREACHABLE
    else Max(EdgeLevel(es[..|es| - 1], f, t),
             var e := es[|es| - 1]; if e.from == f && e.to == t then e.Level() else UNREACHABLE)
  }

  /** A sequence of states that starts in the starting state and ends in s. */
  predicate IsPath(p: seq<nat>, n: nat, s: nat) {
    p != [] && p[0] == 0 && p[|p| - 1] == s && forall x | x in p :: x < n
  }

  function PathLevel(es: seq<Edge>, p: seq<nat>): nat
    requires p != []
  {
    if |p| == 1 then REACHABLE
    else Min(PathLevel(es, p[..|p| - 1]), EdgeLevel(es, p[|p| - 2], p[|p| - 1]))
  }

  /** r is the largest level of any path to s. */
  ghost predicate IsBest(es: seq<Edge>, n: nat, s: nat, r: nat) {
    && (exists p :: IsPath(p, n, s) && PathLevel(es, p) == r)
    && (forall p :: IsPath(p, n, s) ==> PathLevel(es, p) <= r)
  }

  ghost predicate Achieved(es: seq<Edge>, n: nat, s: nat, r: nat) {
    exists p :: IsPath(p, n, s) && PathLevel(es, p) >= r
  }

  lemma {:induction false} EdgeLevelMeans(es: seq<Edge>, f: nat, t: nat)
    ensures EdgeLevel(es, f, t) <= REACHABLE
    ensures EdgeLevel(es, f, t) > UNREACHABLE <==> exists e :: e in es && e.from == f && e.to == t
    ensures EdgeLevel(es, f, t) == REACHABLE <==> exists e :: e in es && e.from == f && e.to == t && e.unconditional
  {
    if es != [] {
      var rest, last := es[..|es| - 1], es[|es| - 1];
      EdgeLevelMeans(rest, f, t);
      assert es == rest + [last];
    }
  }

  lemma {:induction false} EdgeLevelConcat(es: seq<Edge>, es': seq<Edge>, f: nat, t: nat)
    ensures EdgeLevel(es + es', f, t) == Max(EdgeLevel(es, f, t), EdgeLevel(es', f, t))
  {
    if es' == [] {
      assert es + es' == es;
    } else {
      var k := |es'| - 1;
      assert (es + es')[..|es| + k] == es + es'[..k];
      EdgeLevelConcat(es, es'[..k], f, t);
    }
  }

  lemma Extend(es: seq<Edge>, n: nat, p: seq<nat>, u: nat, t: nat)
    requires IsPath(p, n, u) && t < n
    ensures IsPath(p + [t], n, t)
    ensures PathLevel(es, p + [t]) == Min(PathLevel(es, p), EdgeLevel(es, u, t))
  {
    assert (p + [t])[..|p|] == p;
  }

  lemma AchieveStep(es: seq<Edge>, n: nat, u: nat, r: nat, t: nat)
    requires Achieved(es, n, u, r) && t < n
    ensures Achieved(es, n, t, Min(r, EdgeLevel(es, u, t)))
  {
    var p :| IsPath(p, n, u) && PathLevel(es, p) >= r;
    Extend(es, n, p, u, t);
  }

  lemma AchieveInitially(es: seq<Edge>, n: nat, s: nat)
    requires s < n
    ensures Achieved(es, n, 0, REACHABLE) && Achieved(es, n, s, UNREACHABLE)
  {
    assert IsPath([0], n, 0) && PathLevel(es, [0]) == REACHABLE;
    AchieveStep(es, n, 0, REACHABLE, s);
    var p :| IsPath(p, n, s) && PathLevel(es, p) >= Min(REACHABLE, EdgeLevel(es, 0, s));
    assert PathLevel(es, p) >= UNREACHABLE;
  }

  // ----- the transition matrix --------------------------------------------------------------------

  lemma IndexBounds(n: nat, f: nat, t: nat)
    requires f < n && t < n
    ensures 0 <= n * f + t < n * n
  {
    assert n * f <= n * (n - 1);
  }

  lemma RowsInOrder(n: nat, f: nat, t: nat, f': nat, t': nat)
    requires t < n
    ensures f < f' ==> n * f + t < n * f' + t'
  {
    if f < f' {
      assert n * (f + 1) <= n * f';
    }
  }

  lemma IndexInjective(n: nat, f: nat, t: nat, f': nat, t': nat)
    requires t < n && t' < n && n * f + t == n * f' + t'
    ensures f == f' && t == t'
  {
    RowsInOrder(n, f, t, f', t');
    RowsInOrder(n, f', t', f, t);
  }

  ghost predicate MatrixHolds(m: seq<nat>, n: nat, es: seq<Edge>) {
    && |m| == n * n
    && forall f, t | 0 <= f < n && 0 <= t < n :: IndexIn(m, n, f, t) && m[n * f + t] == EdgeLevel(es, f, t)
  }

  predicate IndexIn(m: seq<nat>, n: nat, f: nat, t: nat) {
    n * f + t < |m|
  }

  /** Raise the matrix by one array of transitions. */
  method SetTransitionMatrixEntries(matrix: array<nat>, n: nat, bucket: seq<Edge>, ghost done: seq<Edge>)
    requires Within(bucket, n) && MatrixHolds(matrix[..], n, done)
    modifies matrix
    ensures MatrixHolds(matrix[..], n, done + bucket)
  {
    assert done + bucket[..0] == done;
    for i := 0 to |bucket|
      invariant MatrixHolds(matrix[..], n, done + bucket[..i])
    {
      var e := bucket[i];
      ghost var before, was := done + bucket[..i], matrix[..];
      assert e in bucket;
      IndexBounds(n, e.from, e.to);
      matrix[n * e.from + e.to] := Max(matrix[n * e.from + e.to], e.Level());
      MatrixRaised(was, matrix[..], n, before, e);
      assert before + [e] == done + bucket[..i + 1];
    }
    assert bucket[..|bucket|] == bucket;
  }

  lemma MatrixRaised(m: seq<nat>, m': seq<nat>, n: nat, es: seq<Edge>, e: Edge)
    requires MatrixHolds(m, n, es) && e.from < n && e.to < n && n * e.from + e.to < |m|
    requires m' == m[n * e.from + e.to := Max(m[n * e.from + e.to], e.Level())]
    requires IndexIn(m, n, e.from, e.to)
    ensures MatrixHolds(m', n, es + [e])
  {
    forall f, t | 0 <= f < n && 0 <= t < n
      ensures IndexIn(m', n, f, t) && m'[n * f + t] == EdgeLevel(es + [e], f, t)
    {
      assert (es + [e])[..|es|] == es;
      assert IndexIn(m, n, f, t);
      if n * f + t == n * e.from + e.to { IndexInjective(n, f, t, e.from, e.to); }
    }
  }

  lemma EmptyMatrix(m: seq<nat>, n: nat)
    requires |m| == n * n && forall i | 0 <= i < |m| :: m[i] == UNREACHABLE
    ensures MatrixHolds(m, n, Flatten([]))
  {
    forall f, t | 0 <= f < n && 0 <= t < n ensures IndexIn(m, n, f, t) { IndexBounds(n, f, t); }
  }

  method BuildTransitionMatrix(n: nat, buckets: seq<seq<Edge>>) returns (matrix: array<nat>)
    requires forall b | b in buckets :: Within(b, n)
    ensures fresh(matrix) && MatrixHolds(matrix[..], n, Flatten(buckets))
  {
    hide MatrixHolds;
    matrix := new nat[n * n](_ => UNREACHABLE);
    EmptyMatrix(matrix[..], n);
    assert buckets[..0] == [];
    for i := 0 to |buckets|
      invariant fresh(matrix) && MatrixHolds(matrix[..], n, Flatten(buckets[..i]))
    {
      SetTransitionMatrixEntries(matrix, n, buckets[i], Flatten(buckets[..i]));
      assert buckets[..i + 1][..i] == buckets[..i];
    }
    assert buckets[..|buckets|] == buckets;
  }

  // ----- the search -------------------------------------------------------------------------------

  /** Take the first of the most reachable states out of the queue. */
  method PopMostReachable(queue: seq<nat>, reachability: array<nat>) returns (state: nat, level: nat, rest: seq<nat>)
    requires queue != [] && forall j | 0 <= j < |queue| :: queue[j] < reachability.Length
    requires forall s | 0 <= s < reachability.Length :: reachability[s] <= REACHABLE
    ensures state in queue && level == reachability[state]
    ensures forall j | 0 <= j < |queue| :: reachability[queue[j]] <= level
    ensures exists i :: 0 <= i < |queue| && queue[i] == state && rest == queue[..i] + queue[i + 1..]
  {
    var highest := -1;
    level, state := UNREACHABLE, 0;
    var i := 0;
    while i < |queue|
      invariant 0 <= i <= |queue| && -1 <= highest < i
      invariant highest == -1 <==> i == 0
      invariant highest >= 0 ==> state == queue[highest] && level == reachability[state]
      invariant forall j | 0 <= j < i :: reachability[queue[j]] <= level
    {
      if highest == -1 || reachability[queue[i]] > level {
        state := queue[i];
        level := reachability[state];
        highest := i;
        if level == REACHABLE {
          break;
        }
      }
      i := i + 1;
    }
    rest := queue[..highest] + queue[highest + 1..];
  }

  /** Nothing repeats in the queue. */
  /** What the search knows: every level is achieved, and visited states are relaxed and come first. */
  ghost predicate SearchInvariant(es: seq<Edge>, n: nat, r: seq<nat>, queue: seq<nat>) {
    && |r| == n && n > 0 && r[0] == REACHABLE
    && (forall s | 0 <= s < n :: r[s] <= REACHABLE && Achieved(es, n, s, r[s]))
    && (forall s | s in queue :: s < n)
    && (forall v, t | 0 <= v < n && 0 <= t < n && v !in queue :: r[t] >= Min(r[v], EdgeLevel(es, v, t)))
    && (forall v, u | 0 <= v < n && v !in queue && u in queue :: r[v] >= r[u])
  }

  lemma SearchBounds(es: seq<Edge>, n: nat, r: seq<nat>, queue: seq<nat>)
    requires SearchInvariant(es, n, r, queue)
    ensures forall j | 0 <= j < |queue| :: queue[j] < n
    ensures forall s | 0 <= s < n :: r[s] <= REACHABLE
  {
    assert forall j | 0 <= j < |queue| :: queue[j] in queue;
  }

  /** Once the states still in the queue are unreachable, no path beats the level found. */
  lemma {:induction false} NoBetterPath(es: seq<Edge>, n: nat, r: seq<nat>, queue: seq<nat>, p: seq<nat>, s: nat)
    requires SearchInvariant(es, n, r, queue) && forall u | u in queue :: r[u] == UNREACHABLE
    requires IsPath(p, n, s)
    ensures s < n && PathLevel(es, p) <= r[s]
    decreases |p|
  {
    assert p[|p| - 1] in p;
    if |p| > 1 {
      var u := p[|p| - 2];
      assert u in p;
      var q := p[..|p| - 1];
      assert forall x | x in q :: x in p;
      NoBetterPath(es, n, r, queue, q, u);
    }
  }

  lemma SearchFinished(es: seq<Edge>, n: nat, r: seq<nat>, queue: seq<nat>)
    requires SearchInvariant(es, n, r, queue) && forall u | u in queue :: r[u] == UNREACHABLE
    ensures forall s | 0 <= s < n :: IsBest(es, n, s, r[s])
  {
    forall s | 0 <= s < n ensures IsBest(es, n, s, r[s]) {
      forall p | IsPath(p, n, s) ensures PathLevel(es, p) <= r[s] {
        NoBetterPath(es, n, r, queue, p, s);
      }
      assert Achieved(es, n, s, r[s]);
      var p :| IsPath(p, n, s) && PathLevel(es, p) >= r[s];
      assert PathLevel(es, p) == r[s];
    }
  }

  /** Removing one occurrence from a queue without repetitions removes the state. */
  lemma PopRemoves(queue: seq<nat>, i: nat, rest: seq<nat>)
    requires i < |queue| && Distinct(queue) && rest == queue[..i] + queue[i + 1..]
    ensures Distinct(rest) && forall s :: s in rest <==> s in queue && s != queue[i]
  {
    forall s | s in queue && s != queue[i] ensures s in rest {
      var j :| 0 <= j < |queue| && queue[j] == s;
      assert if j < i then rest[j] == s else rest[j - 1] == s;
    }
    forall s | s in rest ensures s in queue && s != queue[i] {
      var j :| 0 <= j < |rest| && rest[j] == s;
      assert s == queue[if j < i then j else j + 1];
    }
  }

  /** Relax every transition out of the state just popped. */
  method RelaxNeighbours(matrix: array<nat>, n: nat, state: nat, level: nat, reachability: array<nat>,
                         ghost es: seq<Edge>)
    requires reachability.Length == n && state < n && matrix != reachability
    requires MatrixHolds(matrix[..], n, es)
    modifies reachability
    ensures forall t | 0 <= t < n :: reachability[t] == Max(old(reachability[t]), Min(level, EdgeLevel(es, state, t)))
  {
    for i := 0 to n
      invariant forall t | 0 <= t < i ::
        reachability[t] == Max(old(reachability[t]), Min(level, EdgeLevel(es, state, t)))
      invariant forall t | i <= t < n :: reachability[t] == old(reachability[t])
    {
      assert IndexIn(matrix[..], n, state, i);
      var neighbour := Min(level, matrix[n * state + i]);
      if neighbour > reachability[i] {
        reachability[i] := neighbour;
      }
    }
  }

  lemma RelaxKeepsInvariant(es: seq<Edge>, n: nat, r: seq<nat>, r': seq<nat>, queue: seq<nat>, rest: seq<nat>,
                            state: nat)
    requires SearchInvariant(es, n, r, queue) && state in queue && |r'| == n
    requires forall s | s in queue :: r[s] <= r[state]
    requires forall s :: s in rest <==> s in queue && s != state
    requires forall t | 0 <= t < n :: r'[t] == Max(r[t], Min(r[state], EdgeLevel(es, state, t)))
    ensures SearchInvariant(es, n, r', rest)
  {
    forall t | 0 <= t < n ensures r'[t] <= REACHABLE && Achieved(es, n, t, r'[t]) {
      AchieveStep(es, n, state, r[state], t);
    }
    forall v | 0 <= v < n && v !in queue ensures r'[v] == r[v] {}
    assert r'[state] == r[state];
  }

  /** dfsm_machine_calculate_state_reachability(): every state gets the level of its best path. */
  method CalculateStateReachability(n: nat, buckets: seq<seq<Edge>>) returns (reachability: array<nat>)
    requires n > 0 && forall b | b in buckets :: Within(b, n)
    ensures fresh(reachability) && reachability.Length == n
    ensures forall s | 0 <= s < n :: IsBest(Flatten(buckets), n, s, reachability[s])
  {
    hide SearchInvariant, MatrixHolds, IsBest, Distinct;
    ghost var es := Flatten(buckets);
    reachability := new nat[n](_ => UNREACHABLE);
    var queue: seq<nat> := [];
    for i := 0 to n
      invariant |queue| == i && forall j | 0 <= j < i :: queue[j] == i - 1 - j
    {
      queue := [i] + queue;
    }
    reachability[0] := REACHABLE;
    var matrix := BuildTransitionMatrix(n, buckets);
    InitialInvariant(es, n, reachability[..], queue);

    while queue != []
      invariant SearchInvariant(es, n, reachability[..], queue) && Distinct(queue)
      invariant MatrixHolds(matrix[..], n, es) && matrix != reachability
      invariant fresh(reachability) && fresh(matrix) && reachability.Length == n
      decreases |queue|
    {
      ghost var r, q := reachability[..], queue;
      SearchBounds(es, n, r, queue);
      var state, level, rest := PopMostReachable(queue, reachability);
      ghost var i :| 0 <= i < |queue| && queue[i] == state && rest == queue[..i] + queue[i + 1..];
      PopRemoves(queue, i, rest);
      if level == UNREACHABLE {
        break;
      }
      queue := rest;
      RelaxNeighbours(matrix, n, state, level, reachability, es);
      RelaxKeepsInvariant(es, n, r, reachability[..], q, rest, state);
    }
    SearchFinished(es, n, reachability[..], queue);
  }

  lemma InitialInvariant(es: seq<Edge>, n: nat, r: seq<nat>, queue: seq<nat>)
    requires n > 0 && |r| == n && |queue| == n
    requires forall s | 0 <= s < n :: r[s] == if s == 0 then REACHABLE else UNREACHABLE
    requires forall j | 0 <= j < n :: queue[j] == n - 1 - j
    ensures SearchInvariant(es, n, r, queue) && Distinct(queue)
  {
    forall s | 0 <= s < n ensures Achieved(es, n, s, r[s]) && s in queue {
      AchieveInitially(es, n, s);
      assert queue[n - 1 - s] == s;
    }
  }

  /** The best level of a state is unique, so the search's result does not depend on the order it pops in. */
  lemma BestIsUnique(es: seq<Edge>, n: nat, s: nat, r: nat, r': nat)
    requires IsBest(es, n, s, r) && IsBest(es, n, s, r')
    ensures r == r'
  {
  }
}
