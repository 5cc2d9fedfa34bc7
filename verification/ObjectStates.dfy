/**
 Numbering the states of an object and registering its transitions between them.
 */
module ObjectStates {
  import opened Results
  import opened Sequences
  import opened Transitions
  import opened Scanning

  // ----- names ------------------------------------------------------------------------------------

  /** dfsm_is_state_name(): letters, digits and underscores, in any order. */
  predicate IsMemberName(s: string) {
    s != [] && forall i | 0 <= i < |s| :: IsMemberChar(s[i])
  }

  predicate IsMemberChar(c: char) {
    'a' <= c <= 'z' || 'A' <= c <= 'Z' || '0' <= c <= '9' || c == '_'
  }

  // ----- numbering --------------------------------------------------------------------------------

  /** The numbered names: the last stored name of the first block, then all others as stored. */
  function Numbered(blocks: seq<seq<string>>): seq<string>
    requires blocks != [] && blocks[0] != []
  {
    var last := |blocks[0]| - 1;
    [blocks[0][last]] + blocks[0][..last] + Flatten(blocks[1..])
  }

  /** Every name but the main state's is checked to be a valid name. */
  predicate ValidNames(names: seq<string>) {
    forall i | 0 < i < |names| :: IsMemberName(names[i])
  }

  /** The table maps each name to its number. */
  ghost predicate Numbers(table: map<string, nat>, names: seq<string>) {
    && (forall i | 0 <= i < |names| :: names[i] in table && table[names[i]] == i)
    && (forall name | name in table :: table[name] < |names| && names[table[name]] == name)
  }

  method NumberBlock(block: seq<string>, count: nat, states: seq<string>, numbers: map<string, nat>)
    returns (ok: bool, states': seq<string>, numbers': map<string, nat>)
    requires count <= |block| && Numbers(numbers, states) && Distinct(states) && states != [] && ValidNames(states)
    ensures ok <==> Distinct(states + block[..count]) && ValidNames(states + block[..count])
    ensures ok ==> states' == states + block[..count] && Numbers(numbers', states')
  {
    states', numbers' := states, numbers;
    ghost var all := states + block[..count];
    for f := 0 to count
      invariant states' == states + block[..f] && Numbers(numbers', states')
      invariant Distinct(states') && ValidNames(states')
    {
      assert all[|states| + f] == block[f];
      if !IsMemberName(block[f]) {
        return false, states, numbers;
      }
      if block[f] in numbers' {
        Repeated(states', all, numbers'[block[f]], block[f]);
        return false, states, numbers;
      }
      states', numbers' := states' + [block[f]], numbers'[block[f] := |states'|];
    }
    ok := true;
  }

  lemma Repeated(seen: seq<string>, all: seq<string>, i: nat, name: string)
    requires i < |seen| < |all| && seen == all[..|seen|] && seen[i] == name && all[|seen|] == name
    ensures !Distinct(all)
  {
    assert all[i] == name;
  }

  /** The names numbered before block i. */
  function NumberedBefore(blocks: seq<seq<string>>, i: nat): seq<string>
    requires blocks != [] && blocks[0] != [] && i <= |blocks|
  {
    var last := |blocks[0]| - 1;
    if i == 0 then [blocks[0][last]] else [blocks[0][last]] + blocks[0][..last] + Flatten(blocks[1..i])
  }

  /** How many names of a block are numbered when its turn comes: the main state is skipped. */
  function Count(blocks: seq<seq<string>>, i: nat): (n: nat)
    requires blocks != [] && blocks[0] != [] && i < |blocks|
    ensures n <= |blocks[i]|
  {
    if i == 0 then |blocks[0]| - 1 else |blocks[i]|
  }

  lemma NumberedGrows(blocks: seq<seq<string>>, i: nat)
    requires blocks != [] && blocks[0] != [] && i < |blocks|
    ensures NumberedBefore(blocks, i + 1) == NumberedBefore(blocks, i) + blocks[i][..Count(blocks, i)]
    ensures NumberedBefore(blocks, i + 1) <= Numbered(blocks)
    ensures NumberedBefore(blocks, |blocks|) == Numbered(blocks)
  {
    var last := |blocks[0]| - 1;
    var head := [blocks[0][last]] + blocks[0][..last];
    assert blocks[1..][..i] == blocks[1..i + 1] && blocks[1..|blocks|] == blocks[1..];
    FlattenPrefix(blocks[1..], i);
    if i == 0 {
      assert blocks[1..1] == [] && Flatten<string>([]) == [];
    } else {
      assert blocks[1..i + 1][..i - 1] == blocks[1..i] && blocks[i][..|blocks[i]|] == blocks[i];
      assert head + (Flatten(blocks[1..i]) + blocks[i]) == head + Flatten(blocks[1..i]) + blocks[i];
    }
    PrefixKept(head, Flatten(blocks[1..i + 1]), Flatten(blocks[1..]));
  }

  lemma PrefixKept(head: seq<string>, a: seq<string>, b: seq<string>)
    requires a <= b
    ensures head + a <= head + b
  {
    assert b == a + b[|a|..];
    assert head + b == (head + a) + b[|a|..];
  }

  /** The numbering of states in dfsm_ast_object_pre_check_and_register(). */
  method NumberStates(blocks: seq<seq<string>>) returns (r: Option<(seq<string>, map<string, nat>)>)
    ensures r.Some? <==> blocks != [] && blocks[0] != [] && Distinct(Numbered(blocks)) && ValidNames(Numbered(blocks))
    ensures r.Some? ==> r.value.0 == Numbered(blocks) && Numbers(r.value.1, r.value.0)
  {
    if |blocks| == 0 || |blocks[0]| == 0 {
      return None;
    }
    var main := blocks[0][|blocks[0]| - 1];
    var states, numbers := [main], map[main := 0];
    MainAlone(main);
    NumberedGrows(blocks, 0);
    hide Distinct, ValidNames, Numbers, Numbered, NumberedBefore, Flatten;
    assert states == NumberedBefore(blocks, 0) by { StartNumbered(blocks); }
    for i := 0 to |blocks|
      invariant states == NumberedBefore(blocks, i) && states != []
      invariant Distinct(states) && ValidNames(states) && Numbers(numbers, states)
    {
      NumberedGrows(blocks, i);
      var ok;
      ok, states, numbers := NumberBlock(blocks[i], Count(blocks, i), states, numbers);
      if !ok {
        PrefixFails(NumberedBefore(blocks, i + 1), Numbered(blocks));
        return None;
      }
    }
    r := Some((states, numbers));
  }

  lemma StartNumbered(blocks: seq<seq<string>>)
    requires blocks != [] && blocks[0] != []
    ensures NumberedBefore(blocks, 0) == [blocks[0][|blocks[0]| - 1]]
  {
  }

  lemma MainAlone(name: string)
    ensures Numbers(map[name := 0], [name]) && Distinct([name]) && ValidNames([name])
  {
  }

  lemma {:induction false} FlattenPrefix(blocks: seq<seq<string>>, i: nat)
    requires i <= |blocks|
    ensures Flatten(blocks[..i]) <= Flatten(blocks)
    decreases |blocks|
  {
    if i == |blocks| {
      assert blocks[..i] == blocks;
    } else {
      var init := blocks[..|blocks| - 1];
      assert init[..i] == blocks[..i];
      FlattenPrefix(init, i);
    }
  }

  lemma PrefixFails(some: seq<string>, all: seq<string>)
    requires some <= all && !(Distinct(some) && ValidNames(some))
    ensures !(Distinct(all) && ValidNames(all))
  {
  }

  /** Numbering loses no state and invents none. */
  lemma NumberingPermutes(blocks: seq<seq<string>>)
    requires blocks != [] && blocks[0] != []
    ensures multiset(Numbered(blocks)) == multiset(Flatten(blocks))
  {
    var last := |blocks[0]| - 1;
    FlattenFirst(blocks);
    assert blocks[0] == blocks[0][..last] + [blocks[0][last]];
  }

  lemma {:induction false} FlattenFirst(blocks: seq<seq<string>>)
    requires blocks != []
    ensures Flatten(blocks) == blocks[0] + Flatten(blocks[1..])
    decreases |blocks|
  {
    if |blocks| == 1 {
      assert blocks[..0] == [] && blocks[1..] == [];
      assert Flatten(blocks) == [] + blocks[0];
    } else {
      FlattenFirst(blocks[..|blocks| - 1]);
      assert blocks[..|blocks| - 1][1..] == blocks[1..][..|blocks| - 2];
    }
  }

  /** The parser stores the names of a block last to first. */
  function Stored(block: seq<string>): seq<string> {
    if block == [] then [] else Stored(block[1..]) + [block[0]]
  }

  /** The starting state is the first state of the first block, as written. */
  lemma {:induction false} StartIsFirstWritten(first: seq<string>, rest: seq<seq<string>>)
    requires first != []
    ensures Stored(first) != [] && Numbered([Stored(first)] + rest)[0] == first[0]
  {
    assert Stored(first) == Stored(first[1..]) + [first[0]];
  }

  // ----- registering transitions ------------------------------------------------------------------

  datatype StatePair = StatePair(from: string, to: string)

  datatype TransitionBlock = TransitionBlock(transition: Transition, pairs: seq<StatePair>)

  predicate KnownPair(pair: StatePair, names: seq<string>) {
    IsMemberName(pair.from) && IsMemberName(pair.to) && pair.from in names && pair.to in names
  }

  /** A transition block that passes its pre-check and names only known states. */
  predicate KnownBlock(b: TransitionBlock, names: seq<string>) {
    WellShaped(b.transition) && forall j | 0 <= j < |b.pairs| :: KnownPair(b.pairs[j], names)
  }

  /** The transition as registered: its states' names are those of the pair. */
  predicate Joins(arc: Arc, t: Transition, pair: StatePair, names: seq<string>) {
    && arc.transition == t && arc.from < |names| && arc.to < |names|
    && names[arc.from] == pair.from && names[arc.to] == pair.to
  }

  /** One transition per pair, in order. */
  ghost predicate RegisteredBlock(arcs: seq<Arc>, b: TransitionBlock, names: seq<string>) {
    |arcs| == |b.pairs| && forall j | 0 <= j < |arcs| :: Joins(arcs[j], b.transition, b.pairs[j], names)
  }

  ghost predicate Registered(arcs: seq<Arc>, blocks: seq<TransitionBlock>, names: seq<string>)
    decreases blocks
  {
    if blocks == [] then arcs == [] else
      var b := blocks[|blocks| - 1];
      && |b.pairs| <= |arcs|
      && RegisteredBlock(arcs[|arcs| - |b.pairs|..], b, names)
      && Registered(arcs[..|arcs| - |b.pairs|], blocks[..|blocks| - 1], names)
  }

  method RegisterBlock(b: TransitionBlock, names: seq<string>, numbers: map<string, nat>)
    returns (ok: bool, arcs: seq<Arc>)
    requires Numbers(numbers, names)
    ensures ok <==> KnownBlock(b, names)
    ensures ok ==> RegisteredBlock(arcs, b, names)
  {
    arcs := [];
    ok := PreCheck(b.transition);
    if !ok {
      return;
    }
    for j := 0 to |b.pairs|
      invariant |arcs| == j
      invariant forall k | 0 <= k < j :: KnownPair(b.pairs[k], names) && Joins(arcs[k], b.transition, b.pairs[k], names)
    {
      var pair := b.pairs[j];
      if !IsMemberName(pair.from) || !IsMemberName(pair.to) || pair.from !in numbers || pair.to !in numbers {
        return false, arcs;
      }
      arcs := arcs + [Arc(numbers[pair.from], numbers[pair.to], b.transition)];
    }
  }

  /** The registration of transitions in dfsm_ast_object_pre_check_and_register(). */
  method RegisterTransitions(blocks: seq<TransitionBlock>, names: seq<string>, numbers: map<string, nat>)
    returns (ok: bool, arcs: seq<Arc>)
    requires Numbers(numbers, names)
    ensures ok <==> forall i | 0 <= i < |blocks| :: KnownBlock(blocks[i], names)
    ensures ok ==> Registered(arcs, blocks, names)
  {
    hide KnownBlock, RegisteredBlock, Numbers;
    arcs := [];
    assert blocks[..0] == [];
    for i := 0 to |blocks|
      invariant Registered(arcs, blocks[..i], names)
      invariant forall k | 0 <= k < i :: KnownBlock(blocks[k], names)
    {
      var known, more := RegisterBlock(blocks[i], names, numbers);
      if !known {
        return false, arcs;
      }
      BlockLength(more, blocks[i], names);
      assert blocks[..i + 1][..i] == blocks[..i];
      assert (arcs + more)[|arcs|..] == more && (arcs + more)[..|arcs|] == arcs;
      arcs := arcs + more;
    }
    assert blocks[..|blocks|] == blocks;
    ok := true;
  }

  lemma BlockLength(arcs: seq<Arc>, b: TransitionBlock, names: seq<string>)
    requires RegisteredBlock(arcs, b, names)
    ensures |arcs| == |b.pairs|
  {
  }

  /** Registered transitions lead between numbered states, so no state number is ever out of bounds. */
  lemma {:induction false} RegisteredWithin(arcs: seq<Arc>, blocks: seq<TransitionBlock>, names: seq<string>)
    requires Registered(arcs, blocks, names)
    ensures forall k | 0 <= k < |arcs| :: arcs[k].from < |names| && arcs[k].to < |names|
    decreases |blocks|
  {
    if blocks != [] {
      var n := |arcs| - |blocks[|blocks| - 1].pairs|;
      RegisteredWithin(arcs[..n], blocks[..|blocks| - 1], names);
      forall k | n <= k < |arcs| ensures arcs[k].from < |names| && arcs[k].to < |names| {
        assert arcs[n..][k - n] == arcs[k];
      }
    }
  }

  /** With distinct names, what a pair of names registers is determined. */
  lemma JoinsUnique(arc: Arc, arc': Arc, t: Transition, pair: StatePair, names: seq<string>)
    requires Distinct(names) && Joins(arc, t, pair, names) && Joins(arc', t, pair, names)
    ensures arc == arc'
  {
  }
}
