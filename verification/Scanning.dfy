/**
 The choice of a transition: a scan over an array of transitions from a random offset, with two
 remembered fallbacks for when nothing better is found.
 */
module Scanning {
  import opened Results
  import opened Language
  import opened Evaluator
  import opened EffectFree
  import opened Statements
  import opened Transitions

  /** A transition registered between two states. */
  datatype Arc = Arc(from: nat, to: nat, transition: Transition)

  /**
   The state a machine is in while it looks for a transition; permits is the answer of the check-transition handler.
   */
  datatype Attempt =
    Attempt(bucket: seq<Arc>, state: nat, env: Env, enable: bool, permits: nat -> bool, rule: Rule := AsWritten)

  /** How the scan remembers a failure: as the code has it, or as the assertions that follow it expect. */
  datatype Rule = AsWritten | Intended

  // ----- classifying one transition ---------------------------------------------------------------

  /**
   What the scan makes of a transition: skip it, note that its preconditions fail, put it off because it
   throws, or run it.
   */
  datatype Class = Skipped | Refused(throws: bool) | Deferred | Runnable

  datatype Classified = Classified(kind: Class, st: Fuzz)

  function Classify(a: Attempt, k: nat, st: Fuzz): Result<Classified>
    requires k < |a.bucket|
  {
    var arc := a.bucket[k];
    if arc.from != a.state || !a.permits(k) then Ok(Classified(Skipped, st)) else
      var checked :- CheckPreconditions(arc.transition.preconditions, a.env, st);
      match checked.verdict
      case Unsatisfied(error) => Ok(Classified(Refused(error.Some?), checked.st))
      case Satisfied =>
        if !arc.transition.ContainsThrow() then Ok(Classified(Runnable, checked.st))
        else if !a.enable then Ok(Classified(Deferred, checked.st))
        else Ok(Classified(if checked.st.Coin() then Deferred else Runnable, checked.st.Advance()))
  }

  // ----- the scan ---------------------------------------------------------------------------------

  /** The index of the i-th transition the scan looks at. */
  function At(n: nat, offset: nat, i: nat): (k: nat)
    requires n > 0
    ensures k < n
  {
    (i + offset) % n
  }

  datatype Visited = Visited(classes: seq<Class>, st: Fuzz)

  /** The classes of the transitions looked at from the i-th on, up to the first that runs. */
  function Visit(a: Attempt, offset: nat, i: nat, st: Fuzz): Result<Visited>
    requires i <= |a.bucket|
    decreases |a.bucket| - i
  {
    if i == |a.bucket| then Ok(Visited([], st)) else
      var c :- Classify(a, At(|a.bucket|, offset, i), st);
      if c.kind.Runnable? then Ok(Visited([Runnable], c.st)) else
        var rest :- Visit(a, offset, i + 1, c.st);
        Ok(Visited([c.kind] + rest.classes, rest.st))
  }

  /** The transition to run and the two fallbacks, as positions in the scan. */
  datatype Fallbacks = Fallbacks(chosen: Option<nat>, candidate: Option<nat>, failure: Option<nat>)

  const NOTHING_FOUND: Fallbacks := Fallbacks(None, None, None)

  function Note(f: Fallbacks, i: nat, c: Class): Fallbacks {
    match c
    case Skipped => f
    case Refused(throws) => if throws && f.failure.None? then f.(failure := Some(i)) else f
    case Deferred => f.(candidate := Some(i), failure := None)
    case Runnable => Fallbacks(Some(i), None, None)
  }

  function Settle(cs: seq<Class>): Fallbacks {
    if cs == [] then NOTHING_FOUND else Note(Settle(cs[..|cs| - 1]), |cs| - 1, cs[|cs| - 1])
  }

  /** The rule the assertions after the scan expect: note a failure only while nothing is put off. */
  function NoteIntended(f: Fallbacks, i: nat, c: Class): Fallbacks {
    if c == Refused(true) && f.candidate.Some? then f else Note(f, i, c)
  }

  function SettleIntended(cs: seq<Class>): Fallbacks {
    if cs == [] then NOTHING_FOUND else NoteIntended(SettleIntended(cs[..|cs| - 1]), |cs| - 1, cs[|cs| - 1])
  }

  function SettleBy(rule: Rule, cs: seq<Class>): Fallbacks {
    if rule.AsWritten? then Settle(cs) else SettleIntended(cs)
  }

  datatype Outcome = Outcome(state: nat, env: Env, st: Fuzz, out: seq<Output>)

  /** execute_transition(): the state changes unless the transition throws. */
  function ExecuteTransition(arc: Arc, enable: bool, o: Outcome): Result<Outcome> {
    var e :- ExecAll(arc.transition.statements, o.env, o.st.(enabled := enable));
    Ok(Outcome(if arc.transition.ContainsThrow() then o.state else arc.to, e.env, e.st, o.out + e.out))
  }

  /** Check the preconditions of a transition once more, this time outputting the error. */
  function ReportFailure(arc: Arc, o: Outcome): Result<Outcome> {
    var checked :- CheckPreconditions(arc.transition.preconditions, o.env, o.st);
    Ok(o.(st := checked.st, out := o.out + Errors(checked.verdict)))
  }

  function Errors(v: Verdict): seq<Output> {
    if v.Unsatisfied? && v.error.Some? then [ThrowOut(v.error.value)] else []
  }

  datatype Attempted = Attempted(outputted: bool, outcome: Outcome)

  /** What follows the scan; at its end both fallbacks being recorded fails an assertion. */
  function Conclude(a: Attempt, offset: nat, f: Fallbacks, st: Fuzz): Result<Attempted>
    requires a.bucket != []
  {
    var start := Outcome(a.state, a.env, st, []);
    var ran :-
      if f.chosen.Some? then ExecuteTransition(a.bucket[At(|a.bucket|, offset, f.chosen.value)], a.enable, start)
      else Ok(start);
    FallBack(a, offset, f, ran)
  }

  function FallBack(a: Attempt, offset: nat, f: Fallbacks, ran: Outcome): Result<Attempted>
    requires a.bucket != []
  {
    var n := |a.bucket|;
    var reported :- if f.failure.Some? then ReportFailure(a.bucket[At(n, offset, f.failure.value)], ran) else Ok(ran);
    var retried :-
      if f.candidate.Some? then ExecuteTransition(a.bucket[At(n, offset, f.candidate.value)], a.enable, reported)
      else Ok(reported);
    if f.failure.Some? && f.candidate.Some? then Fail(BothFallbacks)
    else Ok(Attempted(f != NOTHING_FOUND, retried))
  }

  /** find_and_execute_random_transition(). */
  function FindAndExecute(a: Attempt, st: Fuzz): Result<Attempted> {
    if a.bucket == [] then Ok(Attempted(false, Outcome(a.state, a.env, st, []))) else
      var offset := st.Range(0, |a.bucket|);
      var visited :- Visit(a, offset, 0, st.Advance());
      Conclude(a, offset, SettleBy(a.rule, visited.classes), visited.st)
  }

  // ----- the order of the scan --------------------------------------------------------------------

  /** The scan looks at no transition twice. */
  lemma AtInjective(n: nat, offset: nat, i: nat, j: nat)
    requires i < j < n && offset < n
    ensures At(n, offset, i) != At(n, offset, j)
  {
    Rotated(n, offset, i);
    Rotated(n, offset, j);
  }

  /** A scan that is not cut short looks at every transition. */
  lemma AtSurjective(n: nat, offset: nat, k: nat) returns (i: nat)
    requires k < n && offset < n
    ensures i < n && At(n, offset, i) == k
  {
    i := if k >= offset then k - offset else k + n - offset;
    Rotated(n, offset, i);
  }

  lemma Rotated(n: nat, offset: nat, i: nat)
    requires i < n && offset < n
    ensures At(n, offset, i) == if i + offset < n then i + offset else i + offset - n
  {
  }

  // ----- what the fallbacks mean ------------------------------------------------------------------

  predicate StopsAtRunnable(cs: seq<Class>) {
    forall i | 0 <= i < |cs| - 1 :: !cs[i].Runnable?
  }

  predicate NoneRuns(cs: seq<Class>) {
    forall i | 0 <= i < |cs| :: !cs[i].Runnable?
  }

  predicate LastDeferred(cs: seq<Class>, i: nat) {
    i < |cs| && cs[i].Deferred? && forall j | i < j < |cs| :: !cs[j].Deferred?
  }

  /** The first refusal with an error after the last transition put off. */
  predicate FirstFailure(cs: seq<Class>, i: nat) {
    && i < |cs| && cs[i] == Refused(true)
    && (forall j | i <= j < |cs| :: !cs[j].Deferred?)
    && (forall j | 0 <= j < i && cs[j] == Refused(true) :: exists d | j < d < i :: cs[d].Deferred?)
  }

  /** What the scan remembers, said without it: the transition that runs, or the two fallbacks. */
  lemma {:induction false} SettleMeans(cs: seq<Class>)
    requires StopsAtRunnable(cs)
    ensures var f := Settle(cs);
      && (f.chosen.Some? <==> !NoneRuns(cs))
      && (f.chosen.Some? ==> f == Fallbacks(Some(|cs| - 1), None, None))
      && (f.candidate.Some? <==> NoneRuns(cs) && exists i: nat :: LastDeferred(cs, i))
      && (f.candidate.Some? ==> LastDeferred(cs, f.candidate.value))
      && (f.failure.Some? <==> NoneRuns(cs) && exists i: nat :: FirstFailure(cs, i))
      && (f.failure.Some? ==> FirstFailure(cs, f.failure.value))
  {
    if cs != [] {
      var init, c := cs[..|cs| - 1], cs[|cs| - 1];
      SettleMeans(init);
      assert NoneRuns(init);
      assert forall i | 0 <= i < |init| :: init[i] == cs[i];
      LastDeferredGrows(cs);
      FirstFailureGrows(cs);
    }
  }

  lemma LastDeferredGrows(cs: seq<Class>)
    requires cs != []
    ensures var init, n := cs[..|cs| - 1], |cs| - 1;
      && (cs[n].Deferred? ==> LastDeferred(cs, n))
      && (!cs[n].Deferred? ==> forall i: nat :: LastDeferred(cs, i) <==> LastDeferred(init, i))
  {
    var init := cs[..|cs| - 1];
    assert forall i | 0 <= i < |init| :: init[i] == cs[i];
  }

  lemma FirstFailureGrows(cs: seq<Class>)
    requires cs != []
    ensures var init, n := cs[..|cs| - 1], |cs| - 1;
      && (cs[n].Deferred? ==> forall i: nat :: !FirstFailure(cs, i))
      && (cs[n] != Refused(true) && !cs[n].Deferred? ==>
            forall i: nat :: FirstFailure(cs, i) <==> FirstFailure(init, i))
      && (cs[n] == Refused(true) ==> forall i: nat :: FirstFailure(init, i) ==> FirstFailure(cs, i))
      && (cs[n] == Refused(true) && (forall i: nat :: !FirstFailure(init, i)) ==> FirstFailure(cs, n))
  {
    var init, n := cs[..|cs| - 1], |cs| - 1;
    forall i: nat | i < n ensures !cs[n].Deferred? ==> (FirstFailure(cs, i) <==> FirstFailure(init, i)) {
      assert forall j | 0 <= j < |init| :: init[j] == cs[j];
    }
    if cs[n] == Refused(true) && forall i: nat :: !FirstFailure(init, i) {
      forall j | 0 <= j < n && cs[j] == Refused(true) ensures exists d | j < d < n :: cs[d].Deferred? {
        if forall d | j < d < n :: !cs[d].Deferred? {
          FailureBefore(init, j);
        }
      }
    }
  }

  /** Some refusal with an error comes first after the last transition put off. */
  lemma {:induction false} FailureBefore(cs: seq<Class>, j: nat)
    requires j < |cs| && cs[j] == Refused(true) && forall d | j < d < |cs| :: !cs[d].Deferred?
    ensures exists i: nat :: FirstFailure(cs, i)
    decreases j
  {
    if !FirstFailure(cs, j) {
      var j' :| 0 <= j' < j && cs[j'] == Refused(true) && forall d | j' < d < j :: !cs[d].Deferred?;
      FailureBefore(cs, j');
    }
  }

  /** Both fallbacks are recorded just when a transition put off is followed by a refusal with an error. */
  lemma BothFallbacksIff(cs: seq<Class>)
    requires StopsAtRunnable(cs)
    ensures Settle(cs).candidate.Some? && Settle(cs).failure.Some? <==>
      NoneRuns(cs) && exists i, j | 0 <= i < j < |cs| ::
        cs[i].Deferred? && cs[j] == Refused(true) && LastDeferred(cs, i)
  {
    SettleMeans(cs);
    if NoneRuns(cs) {
      if i, j :| 0 <= i < j < |cs| && cs[i].Deferred? && cs[j] == Refused(true) && LastDeferred(cs, i) {
        FailureBefore(cs, j);
      }
      if i: nat, j: nat :| LastDeferred(cs, i) && FirstFailure(cs, j) {
        assert i < j;
      }
    }
  }

  /** The intended rule never records both fallbacks, and differs from the rule as written only where that does. */
  lemma {:induction false} IntendedRule(cs: seq<Class>)
    ensures var f, g := Settle(cs), SettleIntended(cs);
      && !(g.candidate.Some? && g.failure.Some?)
      && g == if f.candidate.Some? then f.(failure := None) else f
  {
    if cs != [] {
      IntendedRule(cs[..|cs| - 1]);
    }
  }

  /** Under either rule: what is remembered, and when both fallbacks are. */
  lemma SettleByMeans(rule: Rule, cs: seq<Class>)
    requires StopsAtRunnable(cs)
    ensures var f, g := SettleBy(rule, cs), Settle(cs);
      && f.chosen == g.chosen && f.candidate == g.candidate
      && (f.chosen.Some? ==> f == Fallbacks(Some(|cs| - 1), None, None))
      && (f.candidate.Some? ==> LastDeferred(cs, f.candidate.value))
      && (f.failure.Some? ==> FirstFailure(cs, f.failure.value))
      && (f.candidate.Some? && f.failure.Some? <==> rule.AsWritten? && g.candidate.Some? && g.failure.Some?)
  {
    hide Settle, SettleIntended;
    SettleMeans(cs);
    IntendedRule(cs);
  }

  lemma RunnableAlone(rule: Rule)
    ensures SettleBy(rule, [Runnable]) == Fallbacks(Some(0), None, None)
  {
    assert [Runnable][..0] == [];
  }

  // ----- what a scan visits -----------------------------------------------------------------------

  lemma DrawsKeepWeights(st: Fuzz, st': Fuzz)
    requires OnlyDraws(st, st')
    ensures SameWeights(st, st')
  {
  }

  lemma ClassifyOnlyDraws(a: Attempt, k: nat, st: Fuzz)
    requires k < |a.bucket| && Classify(a, k, st).Ok?
    ensures OnlyDraws(st, Classify(a, k, st).value.st)
    ensures Classify(a, k, st).value.kind == Refused(true) ==>
      exists i :: 0 <= i < |a.bucket[k].transition.preconditions| && a.bucket[k].transition.preconditions[i].error.Some?
  {
    hide CheckPreconditions;
    var arc := a.bucket[k];
    if arc.from == a.state && a.permits(k) {
      var ps := arc.transition.preconditions;
      CheckingOnlyDraws(ps, a.env, st);
      var checked := CheckPreconditions(ps, a.env, st).value;
      Chain(st, checked.st, checked.st) by { assert OnlyDraws(checked.st, checked.st); }
      if checked.verdict.Unsatisfied? && checked.verdict.error.Some? {
        var i :| 0 <= i < |ps| && ps[i].error == checked.verdict.error;
        assert ps[i].error.Some?;
      }
    }
  }

  /** A class some state of the draws gives to a transition. */
  ghost predicate MayBe(a: Attempt, k: nat, st: Fuzz, c: Class)
    requires k < |a.bucket|
  {
    exists st' :: OnlyDraws(st, st') && Classify(a, k, st').Ok? && Classify(a, k, st').value.kind == c
  }

  /** The classes found from the i-th transition on, each of which some state of the draws explains. */
  ghost predicate Explained(a: Attempt, offset: nat, i: nat, st: Fuzz, cs: seq<Class>) {
    && i + |cs| <= |a.bucket|
    && forall j | 0 <= j < |cs| :: MayBe(a, At(|a.bucket|, offset, i + j), st, cs[j])
  }

  /** A scan that ends without running anything has looked at everything. */
  lemma {:induction false} VisitMeans(a: Attempt, offset: nat, i: nat, st: Fuzz)
    requires i <= |a.bucket| && Visit(a, offset, i, st).Ok?
    ensures var v := Visit(a, offset, i, st).value;
      && StopsAtRunnable(v.classes) && OnlyDraws(st, v.st) && Explained(a, offset, i, st, v.classes)
      && (NoneRuns(v.classes) ==> |v.classes| == |a.bucket| - i)
    decreases |a.bucket| - i
  {
    hide Classify, At, OnlyDraws, MayBe, Explained;
    if i == |a.bucket| {
      NothingMoves(a.env, st);
      NothingExplained(a, offset, st);
    } else {
      var k := At(|a.bucket|, offset, i);
      ClassifyOnlyDraws(a, k, st);
      var c := Classify(a, k, st).value;
      NothingExplained(a, offset, st);
      if c.kind.Runnable? {
        ExplainedGrows(a, offset, i, st, c, []);
        assert [c.kind] + [] == [Runnable] && [Runnable][0].Runnable?;
      } else {
        VisitMeans(a, offset, i + 1, c.st);
        var rest := Visit(a, offset, i + 1, c.st).value;
        Chain(st, c.st, rest.st);
        ExplainedGrows(a, offset, i, st, c, rest.classes);
        VisitGrows(c.kind, rest.classes, |a.bucket| - i - 1);
      }
    }
  }

  lemma NothingExplained(a: Attempt, offset: nat, st: Fuzz)
    ensures forall i: nat | i <= |a.bucket| :: Explained(a, offset, i, st, [])
  {
  }

  lemma ExplainedGrows(a: Attempt, offset: nat, i: nat, st: Fuzz, c: Classified, rest: seq<Class>)
    requires i < |a.bucket| && Classify(a, At(|a.bucket|, offset, i), st) == Ok(c) && OnlyDraws(st, c.st)
    requires rest == [] || Explained(a, offset, i + 1, c.st, rest)
    ensures Explained(a, offset, i, st, [c.kind] + rest)
  {
    hide Classify, At;
    var cs := [c.kind] + rest;
    assert OnlyDraws(st, st);
    forall j | 0 <= j < |cs| ensures MayBe(a, At(|a.bucket|, offset, i + j), st, cs[j]) {
      if j > 0 {
        var k := At(|a.bucket|, offset, (i + 1) + (j - 1));
        assert MayBe(a, k, c.st, rest[j - 1]);
        var st' :| OnlyDraws(c.st, st') && Classify(a, k, st').Ok? && Classify(a, k, st').value.kind == rest[j - 1];
        Chain(st, c.st, st');
      }
    }
  }

  lemma VisitGrows(c: Class, rest: seq<Class>, n: nat)
    requires !c.Runnable? && StopsAtRunnable(rest) && (NoneRuns(rest) ==> |rest| == n)
    ensures StopsAtRunnable([c] + rest) && (NoneRuns([c] + rest) ==> |[c] + rest| == n + 1)
  {
    if NoneRuns([c] + rest) {
      assert forall i | 0 <= i < |rest| :: rest[i] == ([c] + rest)[i + 1];
    }
  }

  // ----- the laws of the choice -------------------------------------------------------------------

  /** A transition that may be run: out of the current state, permitted, and its preconditions hold. */
  predicate Eligible(a: Attempt, k: nat)
    requires k < |a.bucket|
  {
    a.bucket[k].from == a.state && a.permits(k) && AllHolding(a.bucket[k].transition.preconditions, a.env)
  }

  predicate UnfuzzedBucket(bucket: seq<Arc>, st: Fuzz) {
    forall k | 0 <= k < |bucket| :: UnfuzzedPreconditions(bucket[k].transition.preconditions, st)
  }

  /** What a class says of a transition when no precondition is fuzzed. */
  predicate FitsClass(a: Attempt, k: nat, c: Class)
    requires k < |a.bucket|
  {
    var t := a.bucket[k].transition;
    && (Eligible(a, k) <==> c.Runnable? || c.Deferred?)
    && (c.Deferred? ==> t.ContainsThrow())
    && (c.Runnable? && !a.enable ==> !t.ContainsThrow())
  }

  lemma ClassMeans(a: Attempt, k: nat, st: Fuzz, c: Class)
    requires k < |a.bucket| && UnfuzzedPreconditions(a.bucket[k].transition.preconditions, st)
    requires MayBe(a, k, st, c)
    ensures FitsClass(a, k, c)
  {
    hide CheckPreconditions, AllHolding;
    var st' :| OnlyDraws(st, st') && Classify(a, k, st').Ok? && Classify(a, k, st').value.kind == c;
    DrawsKeepWeights(st, st');
    if a.bucket[k].from == a.state && a.permits(k) {
      UnfuzzedCheck(a.bucket[k].transition.preconditions, a.env, st, st');
    }
  }

  /** A scan whose classes all fit. */
  predicate FitScan(a: Attempt, offset: nat, cs: seq<Class>) {
    && offset < |a.bucket| && StopsAtRunnable(cs) && |cs| <= |a.bucket|
    && (NoneRuns(cs) ==> |cs| == |a.bucket|)
    && (forall j | 0 <= j < |cs| :: FitsClass(a, At(|a.bucket|, offset, j), cs[j]))
  }

  lemma ScanFits(a: Attempt, offset: nat, st: Fuzz)
    requires offset < |a.bucket| && UnfuzzedBucket(a.bucket, st) && Visit(a, offset, 0, st).Ok?
    ensures FitScan(a, offset, Visit(a, offset, 0, st).value.classes)
  {
    hide FitsClass, MayBe, Visit, At, StopsAtRunnable, NoneRuns, UnfuzzedPreconditions;
    var cs := Visit(a, offset, 0, st).value.classes;
    VisitMeans(a, offset, 0, st);
    forall j | 0 <= j < |cs| ensures FitsClass(a, At(|a.bucket|, offset, j), cs[j]) {
      assert MayBe(a, At(|a.bucket|, offset, 0 + j), st, cs[j]);
      ClassMeans(a, At(|a.bucket|, offset, j), st, cs[j]);
    }
  }

  /** The transition that a scan with these fallbacks executes, if any. */
  function Picked(n: nat, offset: nat, f: Fallbacks): Option<nat>
    requires n > 0
  {
    if f.chosen.Some? then Some(At(n, offset, f.chosen.value))
    else if f.candidate.Some? then Some(At(n, offset, f.candidate.value)) else None
  }

  /** The index of the transition that find_and_execute_random_transition() executes, if any. */
  function Executed(a: Attempt, st: Fuzz): Option<nat>
    requires a.bucket != []
  {
    var offset := st.Range(0, |a.bucket|);
    var visited := Visit(a, offset, 0, st.Advance());
    if visited.Fail? then None else Picked(|a.bucket|, offset, SettleBy(a.rule, visited.value.classes))
  }

  predicate GoodChoice(a: Attempt, e: Option<nat>) {
    && (e.Some? ==> e.value < |a.bucket| && Eligible(a, e.value))
    && (e.None? ==> forall k | 0 <= k < |a.bucket| :: !Eligible(a, k))
    && (e.Some? && !a.enable && a.bucket[e.value].transition.ContainsThrow() ==>
          forall k | 0 <= k < |a.bucket| && Eligible(a, k) :: a.bucket[k].transition.ContainsThrow())
  }

  lemma PickedWell(a: Attempt, offset: nat, cs: seq<Class>)
    requires FitScan(a, offset, cs)
    ensures GoodChoice(a, Picked(|a.bucket|, offset, SettleBy(a.rule, cs)))
  {
    hide Settle, SettleBy, Eligible, At;
    SettleMeans(cs);
    SettleByMeans(a.rule, cs);
    var f := SettleBy(a.rule, cs);
    if NoneRuns(cs) {
      forall k | 0 <= k < |a.bucket|
        ensures Eligible(a, k) ==> f.candidate.Some? && a.bucket[k].transition.ContainsThrow()
      {
        var j := AtSurjective(|a.bucket|, offset, k);
        assert FitsClass(a, At(|a.bucket|, offset, j), cs[j]);
        if cs[j].Deferred? { SomeLastDeferred(cs, j); }
      }
      if f.candidate.Some? {
        assert FitsClass(a, At(|a.bucket|, offset, f.candidate.value), cs[f.candidate.value]);
      }
    } else {
      assert FitsClass(a, At(|a.bucket|, offset, |cs| - 1), cs[|cs| - 1]);
    }
  }

  /**
   The law of choice. What is executed was eligible; if anything is eligible something is executed; and
   with fuzzing off a transition that throws is executed only when no eligible transition does not throw.
   */
  lemma ChoiceLaw(a: Attempt, st: Fuzz)
    requires a.bucket != [] && UnfuzzedBucket(a.bucket, st) && FindAndExecute(a, st).Ok?
    ensures GoodChoice(a, Executed(a, st))
  {
    hide Visit, SettleBy, GoodChoice, Conclude, UnfuzzedPreconditions, FitScan;
    var offset := st.Range(0, |a.bucket|);
    forall k | 0 <= k < |a.bucket|
      ensures UnfuzzedPreconditions(a.bucket[k].transition.preconditions, st.Advance())
    {
      AdvanceKeepsUnfuzzed(a.bucket[k].transition.preconditions, st);
    }
    ScanFits(a, offset, st.Advance());
    PickedWell(a, offset, Visit(a, offset, 0, st.Advance()).value.classes);
  }

  lemma {:induction false} SomeLastDeferred(cs: seq<Class>, j: nat)
    requires j < |cs| && cs[j].Deferred?
    ensures exists i: nat :: LastDeferred(cs, i)
    decreases |cs| - j
  {
    if !LastDeferred(cs, j) {
      var j' :| j < j' < |cs| && cs[j'].Deferred?;
      SomeLastDeferred(cs, j');
    }
  }

  lemma AdvanceKeepsUnfuzzed(ps: seq<Precondition>, st: Fuzz)
    requires UnfuzzedPreconditions(ps, st)
    ensures UnfuzzedPreconditions(ps, st.Advance())
  {
    forall i | 0 <= i < |ps| ensures Unfuzzed(ps[i].condition, st.Advance()) {
      UnfuzzedIsCalm(ps[i].condition, st, st.Advance().(enabled := true));
    }
  }
}
