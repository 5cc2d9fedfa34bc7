/**
 The analysis run on a machine object: the tables of transitions are flattened into arrays of edges in
 whatever order the tables yield them, and the result speaks about every run of the machine.
 */
module LintTool {
  import opened Sequences
  import opened Evaluator
  import opened Transitions
  import opened Scanning
  import opened Machines
  import opened Reachability
  import opened MachineObjects
  import opened Lint

  // ----- only the set of edges matters ------------------------------------------------------------

  ghost predicate SameEdges(es: seq<Edge>, es': seq<Edge>) {
    forall e :: e in es <==> e in es'
  }

  lemma SameEdgeLevel(es: seq<Edge>, es': seq<Edge>, f: nat, t: nat)
    requires SameEdges(es, es')
    ensures EdgeLevel(es, f, t) == EdgeLevel(es', f, t)
  {
    EdgeLevelMeans(es, f, t);
    EdgeLevelMeans(es', f, t);
    forall e | e in es ensures e in es' {}
    forall e | e in es' ensures e in es {}
  }

  lemma {:induction false} SamePathLevel(es: seq<Edge>, es': seq<Edge>, p: seq<nat>)
    requires SameEdges(es, es') && p != []
    ensures PathLevel(es, p) == PathLevel(es', p)
  {
    hide SameEdges, EdgeLevel;
    if |p| > 1 {
      SamePathLevel(es, es', p[..|p| - 1]);
      SameEdgeLevel(es, es', p[|p| - 2], p[|p| - 1]);
    }
  }

  lemma SameBest(es: seq<Edge>, es': seq<Edge>, n: nat, s: nat, r: nat)
    requires SameEdges(es, es') && IsBest(es, n, s, r)
    ensures IsBest(es', n, s, r)
  {
    hide SameEdges, PathLevel;
    forall p | IsPath(p, n, s) ensures PathLevel(es, p) == PathLevel(es', p) { SamePathLevel(es, es', p); }
  }

  // ----- collecting the tables --------------------------------------------------------------------

  lemma {:induction false} FlattenMember(buckets: seq<seq<Edge>>, e: Edge)
    ensures e in Flatten(buckets) <==> exists i | 0 <= i < |buckets| :: e in buckets[i]
  {
    if buckets != [] {
      var init := buckets[..|buckets| - 1];
      FlattenMember(init, e);
      assert forall i | 0 <= i < |init| :: init[i] == buckets[i];
    }
  }

  /** The rows of a table, in whatever order the table yields its keys. */
  method Rows(t: Table) returns (buckets: seq<seq<Edge>>)
    ensures forall b | b in buckets :: exists name :: name in t && b == Edges(t[name])
    ensures forall name | name in t :: Edges(t[name]) in buckets
  {
    buckets := [];
    var keys := t.Keys;
    while keys != {}
      invariant keys <= t.Keys
      invariant forall b | b in buckets :: exists name :: name in t && b == Edges(t[name])
      invariant forall name | name in t && name !in keys :: Edges(t[name]) in buckets
      decreases |keys|
    {
      var key :| key in keys;
      buckets := buckets + [Edges(t[key])];
      keys := keys - {key};
    }
  }

  predicate IsBucket(p: Program, b: seq<Edge>, trigger: Trigger) {
    b == Edges(Bucket(p.arcs, trigger))
  }

  ghost predicate OnlyBuckets(p: Program, buckets: seq<seq<Edge>>) {
    forall b | b in buckets :: exists trigger :: IsBucket(p, b, trigger)
  }

  ghost predicate AllBuckets(p: Program, buckets: seq<seq<Edge>>) {
    forall trigger :: Bucket(p.arcs, trigger) != [] ==> Edges(Bucket(p.arcs, trigger)) in buckets
  }

  lemma RowsAreBuckets(p: Program, methods: Table, properties: Table, buckets: seq<seq<Edge>>)
    requires MethodTable(methods, p.arcs) && PropertyTable(properties, p.arcs)
    requires forall b | b in buckets ::
      || (exists name :: name in methods && b == Edges(methods[name]))
      || (exists name :: name in properties && b == Edges(properties[name]))
      || b == Edges(Bucket(p.arcs, Arbitrary))
    requires forall name | name in methods :: Edges(methods[name]) in buckets
    requires forall name | name in properties :: Edges(properties[name]) in buckets
    requires Edges(Bucket(p.arcs, Arbitrary)) in buckets
    ensures OnlyBuckets(p, buckets) && AllBuckets(p, buckets)
  {
    hide Bucket, Edges;
    forall b | b in buckets ensures exists trigger :: IsBucket(p, b, trigger) {
      if name :| name in methods && b == Edges(methods[name]) {
        assert Row(methods, name) == Bucket(p.arcs, MethodCall(name));
        assert IsBucket(p, b, MethodCall(name));
      } else if name :| name in properties && b == Edges(properties[name]) {
        assert Row(properties, name) == Bucket(p.arcs, PropertySet(name));
        assert IsBucket(p, b, PropertySet(name));
      } else {
        assert IsBucket(p, b, Arbitrary);
      }
    }
    forall trigger | Bucket(p.arcs, trigger) != [] ensures Edges(Bucket(p.arcs, trigger)) in buckets {
      match trigger
      case MethodCall(name) => assert Row(methods, name) == Bucket(p.arcs, trigger);
      case PropertySet(name) => assert Row(properties, name) == Bucket(p.arcs, trigger);
      case Arbitrary =>
    }
  }

  /** The buckets hold between them exactly the edges of the registered transitions. */
  lemma BucketsHoldAllEdges(p: Program, buckets: seq<seq<Edge>>)
    requires OnlyBuckets(p, buckets) && AllBuckets(p, buckets)
    ensures SameEdges(Flatten(buckets), Edges(p.arcs))
  {
    hide Bucket;
    forall e ensures e in Flatten(buckets) <==> e in Edges(p.arcs) {
      FlattenMember(buckets, e);
      if e in Flatten(buckets) {
        var i :| 0 <= i < |buckets| && e in buckets[i];
        assert buckets[i] in buckets;
        var trigger :| IsBucket(p, buckets[i], trigger);
        EdgeOfBucket(p.arcs, trigger, e);
      }
      if e in Edges(p.arcs) {
        var trigger := ArcOfEdge(p.arcs, e);
        var i :| 0 <= i < |buckets| && buckets[i] == Edges(Bucket(p.arcs, trigger));
      }
    }
  }

  lemma EdgeOfBucket(arcs: seq<Arc>, trigger: Trigger, e: Edge)
    requires e in Edges(Bucket(arcs, trigger))
    ensures e in Edges(arcs)
  {
    BucketMeans(arcs, trigger);
    var bucket := Bucket(arcs, trigger);
    var k :| 0 <= k < |bucket| && Edges(bucket)[k] == e;
    assert bucket[k] in arcs;
    var j :| 0 <= j < |arcs| && arcs[j] == bucket[k];
    assert Edges(arcs)[j] == e;
  }

  lemma ArcOfEdge(arcs: seq<Arc>, e: Edge) returns (trigger: Trigger)
    requires e in Edges(arcs)
    ensures Bucket(arcs, trigger) != [] && e in Edges(Bucket(arcs, trigger))
  {
    var k :| 0 <= k < |arcs| && Edges(arcs)[k] == e;
    trigger := arcs[k].transition.trigger;
    BucketMeans(arcs, trigger);
    var bucket := Bucket(arcs, trigger);
    assert arcs[k] in bucket;
    var j :| 0 <= j < |bucket| && bucket[j] == arcs[k];
    assert Edges(bucket)[j] == e;
  }

  lemma EdgesWithin(p: Program, buckets: seq<seq<Edge>>)
    requires StatesWithin(p) && SameEdges(Flatten(buckets), Edges(p.arcs))
    ensures forall b | b in buckets :: Within(b, p.states)
  {
    forall b | b in buckets ensures Within(b, p.states) {
      forall e | e in b ensures e.from < p.states && e.to < p.states {
        FlattenMember(buckets, e);
        assert e in Edges(p.arcs);
        var k :| 0 <= k < |p.arcs| && Edges(p.arcs)[k] == e;
      }
    }
  }

  // ----- the tool ---------------------------------------------------------------------------------

  /** No run of the machine ever enters the state. */
  ghost predicate NeverEntered(p: Program, s: nat) {
    forall st0: Fuzz, es: seq<Event> :: Run(p, Start(p, st0), es).Ok? ==> Run(p, Start(p, st0), es).value.state != s
  }

  /** From any start some ordinary run ends in the state. */
  ghost predicate CanBeEntered(p: Program, s: nat) {
    forall st0: Fuzz :: Entered(p, st0, s)
  }

  /** From any start events lead along a path to the state, unless a transition of the path stops them. */
  ghost predicate CanBeLedTo(p: Program, s: nat) {
    forall st0: Fuzz :: LeadTo(p, p.arcs, st0, s)
  }

  /** The reachability of every state of a machine, and what it says about the machine's runs. */
  method Analyse(m: Machine, states: nat) returns (reachability: array<nat>)
    requires m.Valid() && states == m.program.states && StatesWithin(m.program)
    ensures fresh(reachability) && reachability.Length == states
    ensures forall s | 0 <= s < states :: IsBest(Edges(m.program.arcs), states, s, reachability[s])
    ensures forall s | 0 <= s < states :: reachability[s] == UNREACHABLE ==> NeverEntered(m.program, s)
    ensures ReadyProgram(m.program) && NoFreeThrows(m.program) ==>
      forall s | 0 <= s < states :: reachability[s] == REACHABLE ==>
        && CanBeLedTo(m.program, s)
        && (SafeMoves(m.program, m.program.arcs) ==> CanBeEntered(m.program, s))
  {
    hide IsBest, Flatten, Edges, Bucket, NeverEntered, CanBeEntered, CanBeLedTo, SafeMoves;
    hide ReadyProgram, NoFreeThrows, StatesWithin, SameEdges, Run, OnlyBuckets, AllBuckets;
    ghost var p := m.program;
    var methods := Rows(m.methodTriggered);
    var properties := Rows(m.propertyTriggered);
    var buckets := methods + properties + [Edges(m.arbitrarilyTriggered)];
    assert buckets[|buckets| - 1] == Edges(Bucket(p.arcs, Arbitrary));
    RowsAreBuckets(p, m.methodTriggered, m.propertyTriggered, buckets);
    BucketsHoldAllEdges(p, buckets);
    EdgesWithin(p, buckets);
    NotEmpty(p);
    reachability := CalculateStateReachability(states, buckets);
    forall s | 0 <= s < states
      ensures IsBest(Edges(p.arcs), states, s, reachability[s])
      ensures reachability[s] == UNREACHABLE ==> NeverEntered(p, s)
      ensures ReadyProgram(p) && NoFreeThrows(p) && reachability[s] == REACHABLE ==>
        CanBeLedTo(p, s) && (SafeMoves(p, p.arcs) ==> CanBeEntered(p, s))
    {
      SameBest(Flatten(buckets), Edges(p.arcs), states, s, reachability[s]);
      WhatBestSays(p, s, reachability[s]);
    }
  }

  lemma NotEmpty(p: Program)
    requires StatesWithin(p)
    ensures p.states > 0
  {
  }

  lemma WhatBestSays(p: Program, s: nat, r: nat)
    requires StatesWithin(p) && IsBest(Edges(p.arcs), p.states, s, r)
    ensures r == UNREACHABLE ==> NeverEntered(p, s)
    ensures ReadyProgram(p) && NoFreeThrows(p) && r == REACHABLE ==>
      CanBeLedTo(p, s) && (SafeMoves(p, p.arcs) ==> CanBeEntered(p, s))
  {
    hide IsBest, Run, LeadTo, Entered, ReadyProgram, SafeMoves, NoFreeThrows, StatesWithin;
    if r == UNREACHABLE {
      forall st0: Fuzz, es: seq<Event> | Run(p, Start(p, st0), es).Ok?
        ensures Run(p, Start(p, st0), es).value.state != s {
        UnreachableIsNeverEntered(p, st0, es, s);
      }
    }
    if ReadyProgram(p) && NoFreeThrows(p) && r == REACHABLE {
      forall st0: Fuzz ensures LeadTo(p, p.arcs, st0, s) && (SafeMoves(p, p.arcs) ==> Entered(p, st0, s)) {
        ReachableIsEntered(p, st0, s);
      }
    }
  }
}
