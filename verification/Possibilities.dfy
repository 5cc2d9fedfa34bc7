/**
 What some draws can make of an attempt, whatever is fuzzed: any combination of verdicts that the transitions
 can each get can be got in one scan. So it can be told from the possible verdicts of each transition alone
 when an answer can be lost, and when the fallbacks can clash.
 */
module Possibilities {
  import opened Results
  import opened VariantTypes
  import opened Language
  import opened Evaluator
  import opened EffectFree
  import opened Transitions
  import opened Scanning
  import opened Attempts
  import opened DoubleFallback
  import opened Locality
  import opened Machines
  import opened Answers

  // ----- scans draw alike -------------------------------------------------------------------------

  /** The same weights, and the same draws from here on. */
  ghost predicate Twins(st: Fuzz, st': Fuzz) {
    Akin(st, st') && forall i: nat :: Ahead(st', i) == Ahead(st, i)
  }

  lemma TwinsAlike(st: Fuzz, st': Fuzz, n: int)
    requires Twins(st, st')
    ensures Alike(st, st', n)
  {
  }

  lemma TwinsAfter(st: Fuzz, st': Fuzz, a: Fuzz, a': Fuzz)
    requires Twins(st, st') && OnlyDraws(st, a) && OnlyDraws(st', a') && a'.pos - st'.pos == a.pos - st.pos
    ensures Twins(a, a')
  {
    hide Alike, Akin, OnlyDraws;
    TwinsAlike(st, st', a.pos - st.pos + 1);
    AlikeAfter(st, st', a, a', a.pos - st.pos + 1);
    AlikeAt(a, a', 0);
    forall i: nat ensures Ahead(a', i) == Ahead(a, i) {
      TwinsAlike(st, st', a.pos - st.pos + i + 1);
      AlikeAfter(st, st', a, a', a.pos - st.pos + i + 1);
      AlikeAt(a, a', i);
    }
  }

  lemma AlikeAt(st: Fuzz, st': Fuzz, i: nat)
    requires Alike(st, st', i + 1)
    ensures Akin(st, st') && Ahead(st', i) == Ahead(st, i)
  {
  }

  lemma AkinTransitive(a: Fuzz, b: Fuzz, c: Fuzz)
    requires Akin(a, b) && Akin(b, c)
    ensures Akin(a, c)
  {
    forall id: nat ensures c.Weight(id) == a.Weight(id) { assert c.Weight(id) == b.Weight(id); }
  }

  lemma AkinBack(a: Fuzz, b: Fuzz)
    requires Akin(a, b)
    ensures Akin(b, a)
  {
    forall id: nat ensures a.Weight(id) == b.Weight(id) { assert b.Weight(id) == a.Weight(id); }
  }

  lemma TwinsTransitive(a: Fuzz, b: Fuzz, c: Fuzz)
    requires Twins(a, b) && Twins(b, c)
    ensures Twins(a, c)
  {
    hide Akin;
    AkinTransitive(a, b, c);
  }

  lemma ClassifyLocal(a: Attempt, k: nat, st: Fuzz, st': Fuzz)
    requires k < |a.bucket| && Classify(a, k, st).Ok?
    requires Alike(st, st', Classify(a, k, st).value.st.pos - st.pos)
    ensures Classify(a, k, st').Ok? && Classify(a, k, st').value.kind == Classify(a, k, st).value.kind
    ensures Classify(a, k, st').value.st.pos - st'.pos == Classify(a, k, st).value.st.pos - st.pos
  {
    hide CheckPreconditions, Alike, OnlyDraws;
    if a.bucket[k].from == a.state && a.permits(k) {
      var ps := a.bucket[k].transition.preconditions;
      var n := Classify(a, k, st).value.st.pos - st.pos;
      var checked := CheckPreconditions(ps, a.env, st).value;
      AlikeLess(st, st', n, checked.st.pos - st.pos);
      CheckLocal(ps, a.env, st, st');
      var checked' := CheckPreconditions(ps, a.env, st').value;
      CheckingOnlyDraws(ps, a.env, st);
      CheckingOnlyDraws(ps, a.env, st');
      AlikeAfter(st, st', checked.st, checked'.st, n);
      AlikeAdvance(checked.st, checked'.st, n - (checked.st.pos - st.pos));
    }
  }

  /** Twins lead a scan to the same classes, and end it as twins. */
  lemma {:induction false} VisitTwins(a: Attempt, offset: nat, i: nat, st: Fuzz, st': Fuzz)
    requires i <= |a.bucket| && Twins(st, st') && Visit(a, offset, i, st).Ok?
    ensures Visit(a, offset, i, st').Ok?
    ensures Visit(a, offset, i, st').value.classes == Visit(a, offset, i, st).value.classes
    ensures Twins(Visit(a, offset, i, st).value.st, Visit(a, offset, i, st').value.st)
    decreases |a.bucket| - i
  {
    hide Classify, At, Twins, Alike, OnlyDraws;
    if i < |a.bucket| {
      var k := At(|a.bucket|, offset, i);
      var c := Classify(a, k, st).value;
      TwinsAlike(st, st', c.st.pos - st.pos);
      ClassifyLocal(a, k, st, st');
      var c' := Classify(a, k, st').value;
      ClassifyOnlyDraws(a, k, st);
      ClassifyOnlyDraws(a, k, st');
      TwinsAfter(st, st', c.st, c'.st);
      if !c.kind.Runnable? { VisitTwins(a, offset, i + 1, c.st, c'.st); }
    }
  }

  lemma CheckTwins(ps: seq<Precondition>, env: Env, st: Fuzz, st': Fuzz)
    requires Twins(st, st') && CheckPreconditions(ps, env, st).Ok?
    ensures CheckPreconditions(ps, env, st').Ok?
    ensures CheckPreconditions(ps, env, st').value.verdict == CheckPreconditions(ps, env, st).value.verdict
  {
    hide CheckPreconditions, Alike;
    TwinsAlike(st, st', CheckPreconditions(ps, env, st).value.st.pos - st.pos);
    CheckLocal(ps, env, st, st');
  }

  // ----- any classes the transitions can have -----------------------------------------------------

  /** Some draws lead a scan to this class for this transition. */
  ghost predicate CanBe(a: Attempt, k: nat, st: Fuzz, c: Class)
    requires k < |a.bucket|
  {
    exists st' :: Akin(st, st') && Classify(a, k, st').Ok? && Classify(a, k, st').value.kind == c
  }

  /** The first m draws of one state, and then those of another. */
  function Splice(first: Fuzz, m: nat, then_: Fuzz): Fuzz {
    var turn := first.pos + m;
    first.(tape := (i: nat) => if i < turn then first.tape(i) else then_.tape(then_.pos + i - turn))
  }

  lemma SpliceMeans(first: Fuzz, m: nat, then_: Fuzz, st: Fuzz)
    requires Akin(first, then_)
    ensures Alike(first, Splice(first, m, then_), m)
    ensures OnlyDraws(Splice(first, m, then_), st) && st.pos == first.pos + m ==> Twins(then_, st)
  {
    var s := Splice(first, m, then_);
    forall id: nat ensures s.Weight(id) == first.Weight(id) {}
    forall i: nat | i < m ensures Ahead(s, i) == Ahead(first, i) {}
    if OnlyDraws(s, st) && st.pos == first.pos + m {
      forall id: nat ensures st.Weight(id) == then_.Weight(id) {
        assert st.Weight(id) == s.Weight(id) && then_.Weight(id) == first.Weight(id);
      }
      forall i: nat ensures Ahead(st, i) == Ahead(then_, i) {
        assert st.pos + i >= first.pos + m && then_.pos + (st.pos + i) - (first.pos + m) == then_.pos + i;
      }
    }
  }

  /** Classes for the transitions that a scan looks at from the i-th on, each of which some draws give it. */
  ghost predicate Possible(a: Attempt, offset: nat, i: nat, st: Fuzz, cs: seq<Class>) {
    && i + |cs| == |a.bucket| && NoneRuns(cs)
    && forall j | 0 <= j < |cs| :: CanBe(a, At(|a.bucket|, offset, i + j), st, cs[j])
  }

  /** Some draws then give all of them at once, and go on as one likes. */
  lemma {:induction false} ScanCanBe(a: Attempt, offset: nat, i: nat, st: Fuzz, cs: seq<Class>, goal: Fuzz)
    returns (s: Fuzz)
    requires Possible(a, offset, i, st, cs) && Akin(st, goal)
    ensures Akin(st, s) && Visit(a, offset, i, s).Ok?
    ensures Visit(a, offset, i, s).value.classes == cs && Twins(goal, Visit(a, offset, i, s).value.st)
    decreases |cs|
  {
    hide Classify, At, Twins, Alike, OnlyDraws, Splice, Akin, CanBe;
    if cs == [] {
      s := goal;
      TwinsReflexive(goal);
    } else {
      var k := At(|a.bucket|, offset, i);
      PossibleRest(a, offset, i, st, cs);
      var s1 := ScanCanBe(a, offset, i + 1, st, cs[1..], goal);
      s := PrependClass(a, k, st, cs[0], s1);
      var c := Classify(a, k, s).value;
      VisitTwins(a, offset, i + 1, s1, c.st);
      TwinsTransitive(goal, Visit(a, offset, i + 1, s1).value.st, Visit(a, offset, i + 1, c.st).value.st);
      assert cs == [cs[0]] + cs[1..];
    }
  }

  lemma TwinsReflexive(st: Fuzz)
    ensures Twins(st, st)
  {
  }

  lemma PossibleRest(a: Attempt, offset: nat, i: nat, st: Fuzz, cs: seq<Class>)
    requires Possible(a, offset, i, st, cs) && cs != []
    ensures Possible(a, offset, i + 1, st, cs[1..])
    ensures CanBe(a, At(|a.bucket|, offset, i), st, cs[0]) && !cs[0].Runnable?
  {
    hide CanBe, At;
    forall j | 0 <= j < |cs[1..]| ensures CanBe(a, At(|a.bucket|, offset, i + 1 + j), st, cs[1..][j]) {
      assert CanBe(a, At(|a.bucket|, offset, i + (j + 1)), st, cs[j + 1]) && i + 1 + j == i + (j + 1);
    }
    assert CanBe(a, At(|a.bucket|, offset, i + 0), st, cs[0]);
  }

  lemma PrependClass(a: Attempt, k: nat, st: Fuzz, c: Class, s1: Fuzz) returns (s: Fuzz)
    requires k < |a.bucket| && CanBe(a, k, st, c) && Akin(st, s1)
    ensures Akin(st, s) && Classify(a, k, s).Ok?
    ensures Classify(a, k, s).value.kind == c && Twins(s1, Classify(a, k, s).value.st)
  {
    hide Classify, Twins, Alike, OnlyDraws, Splice, Akin;
    var w :| Akin(st, w) && Classify(a, k, w).Ok? && Classify(a, k, w).value.kind == c;
    ClassifyOnlyDraws(a, k, w);
    var m := Drawn(w, Classify(a, k, w).value.st);
    AkinBack(st, w);
    AkinTransitive(w, st, s1);
    s := Splice(w, m, s1);
    SpliceMeans(w, m, s1, s);
    ClassifyLocal(a, k, w, s);
    AlikeAkin(w, s, m);
    AkinTransitive(st, w, s);
    ClassifyOnlyDraws(a, k, s);
    SplicePos(w, m, s1);
    SpliceMeans(w, m, s1, Classify(a, k, s).value.st);
  }

  function Drawn(st: Fuzz, st': Fuzz): nat
    requires OnlyDraws(st, st')
  {
    st'.pos - st.pos
  }

  lemma SplicePos(first: Fuzz, m: nat, then_: Fuzz)
    ensures Splice(first, m, then_).pos == first.pos
  {
  }

  lemma AlikeAkin(st: Fuzz, st': Fuzz, n: int)
    requires Alike(st, st', n)
    ensures Akin(st, st')
  {
  }

  // ----- whole attempts ---------------------------------------------------------------------------

  /** First the offset, and then these draws. */
  function OffsetThen(pos: nat, offset: nat, s: Fuzz): nat -> Draw {
    (i: nat) => if i <= pos then Draw(offset, "", 0.0, TBool) else s.tape(s.pos + i - pos - 1)
  }

  lemma OffsetThenMeans(st: Fuzz, n: nat, offset: nat, s: Fuzz)
    requires offset < n && Akin(st, s)
    ensures var st' := Redrawn(st, OffsetThen(st.pos, offset, s), 0);
      st'.Range(0, n) == offset && Twins(s, st'.Advance())
  {
    var st' := Redrawn(st, OffsetThen(st.pos, offset, s), 0);
    forall id: nat ensures st'.Advance().Weight(id) == s.Weight(id) {
      assert st'.Weight(id) == st.Weight(id) && s.Weight(id) == st.Weight(id);
    }
    forall i: nat ensures Ahead(st'.Advance(), i) == Ahead(s, i) {
      assert st'.Advance().pos + i == st.pos + (i + 1);
    }
  }

  /** Any possible classes can be what the scan of an attempt finds, from any offset. */
  lemma AttemptCanFind(a: Attempt, offset: nat, st: Fuzz, cs: seq<Class>, goal: Fuzz) returns (tape: nat -> Draw)
    requires offset < |a.bucket| && Possible(a, offset, 0, st, cs) && Akin(st, goal)
    ensures var st' := Redrawn(st, tape, 0);
      && st'.Range(0, |a.bucket|) == offset
      && Visit(a, offset, 0, st'.Advance()).Ok?
      && Visit(a, offset, 0, st'.Advance()).value.classes == cs
      && Twins(goal, Visit(a, offset, 0, st'.Advance()).value.st)
  {
    hide Visit, Possible, Twins, OffsetThen, Redrawn, Akin;
    var s := ScanCanBe(a, offset, 0, st, cs, goal);
    tape := OffsetThen(st.pos, offset, s);
    OffsetThenMeans(st, |a.bucket|, offset, s);
    var st1 := Redrawn(st, tape, 0).Advance();
    VisitTwins(a, offset, 0, s, st1);
    TwinsTransitive(goal, Visit(a, offset, 0, s).value.st, Visit(a, offset, 0, st1).value.st);
  }

  lemma RedrawnAkin(st: Fuzz, tape: nat -> Draw)
    ensures Akin(st, Redrawn(st, tape, 0)) && Akin(st, Redrawn(st, tape, 0).Advance())
  {
    var st' := Redrawn(st, tape, 0);
    forall id: nat ensures st'.Advance().Weight(id) == st.Weight(id) { assert st'.Weight(id) == st.Weight(id); }
  }

  lemma FoundCanBe(a: Attempt, k: nat, st: Fuzz, st': Fuzz, c: Class)
    requires k < |a.bucket| && Akin(st, st') && MayBe(a, k, st', c)
    ensures CanBe(a, k, st, c)
  {
    hide Classify, Akin;
    var s :| OnlyDraws(st', s) && Classify(a, k, s).Ok? && Classify(a, k, s).value.kind == c;
    DrawsAkin(st', s);
    AkinTransitive(st, st', s);
  }

  lemma DrawsAkin(st: Fuzz, st': Fuzz)
    requires OnlyDraws(st, st')
    ensures Akin(st, st')
  {
  }

  /** What a scan that runs nothing finds is possible. */
  lemma FoundIsPossible(a: Attempt, offset: nat, st: Fuzz, st': Fuzz)
    requires Akin(st, st') && Visit(a, offset, 0, st').Ok? && NoneRuns(Visit(a, offset, 0, st').value.classes)
    ensures Possible(a, offset, 0, st, Visit(a, offset, 0, st').value.classes)
    ensures Akin(st, Visit(a, offset, 0, st').value.st)
  {
    hide Visit, At, MayBe, CanBe, Akin, NoneRuns, StopsAtRunnable, OnlyDraws;
    VisitMeans(a, offset, 0, st');
    var v := Visit(a, offset, 0, st').value;
    DrawsAkin(st', v.st);
    AkinTransitive(st, st', v.st);
    forall j | 0 <= j < |v.classes| ensures CanBe(a, At(|a.bucket|, offset, 0 + j), st, v.classes[j]) {
      FoundCanBe(a, At(|a.bucket|, offset, 0 + j), st, st', v.classes[j]);
    }
  }

  // ----- when an answer can be lost ---------------------------------------------------------------

  /** Some draws have the transition refused with an error, and some have a check of it report none. */
  ghost predicate CanWithdraw(a: Attempt, k: nat, st: Fuzz)
    requires k < |a.bucket|
  {
    && CanBe(a, k, st, Refused(true))
    && exists st' :: Akin(st, st') && Reprieved(CheckPreconditions(a.bucket[k].transition.preconditions, a.env, st'))
  }

  /** Some draws have a scan pass the transition by without putting it off. */
  ghost predicate CanBePassedBy(a: Attempt, k: nat, st: Fuzz)
    requires k < |a.bucket|
  {
    CanBe(a, k, st, Skipped) || CanBe(a, k, st, Refused(true)) || CanBe(a, k, st, Refused(false))
  }

  /** One transition can be refused and reprieved, and each of the others can be passed by. */
  ghost predicate AnswerCanBeLost(a: Attempt, st: Fuzz) {
    exists k | 0 <= k < |a.bucket| :: CanWithdraw(a, k, st) && OthersPassedBy(a, k, st)
  }

  ghost predicate OthersPassedBy(a: Attempt, k: nat, st: Fuzz) {
    forall j | 0 <= j < |a.bucket| && j != k :: CanBePassedBy(a, j, st)
  }

  lemma LossForetold(a: Attempt, st: Fuzz, st': Fuzz)
    requires Akin(st, st') && Akin(st, st'.Advance()) && Withdrawn(a, st')
    ensures AnswerCanBeLost(a, st)
  {
    hide Visit, SettleBy, At, CanBe, Akin, Reprieved, Possible, StopsAtRunnable;
    var n, offset := |a.bucket|, st'.Range(0, |a.bucket|);
    var v := Visit(a, offset, 0, st'.Advance()).value;
    var f := SettleBy(a.rule, v.classes);
    var k := At(n, offset, f.failure.value);
    VisitMeans(a, offset, 0, st'.Advance());
    NothingBetter(a.rule, v.classes);
    FoundIsPossible(a, offset, st, st'.Advance());
    PossibleAt(a, offset, st, v.classes, f.failure.value);
    forall j | 0 <= j < n && j != k ensures CanBePassedBy(a, j, st) {
      var i := AtSurjective(n, offset, j);
      PossibleAt(a, offset, st, v.classes, i);
      assert !v.classes[i].Runnable? && !v.classes[i].Deferred?;
    }
    assert CanWithdraw(a, k, st) && OthersPassedBy(a, k, st);
  }

  lemma PossibleAt(a: Attempt, offset: nat, st: Fuzz, cs: seq<Class>, i: nat)
    requires Possible(a, offset, 0, st, cs) && i < |cs|
    ensures |cs| == |a.bucket| && CanBe(a, At(|a.bucket|, offset, i), st, cs[i])
  {
    hide CanBe, At;
    assert CanBe(a, At(|a.bucket|, offset, 0 + i), st, cs[i]);
  }

  /** A refusal is remembered alone just when nothing runs and nothing was put off. */
  lemma NothingBetter(rule: Rule, cs: seq<Class>)
    requires StopsAtRunnable(cs)
    ensures var f := SettleBy(rule, cs);
      f.failure.Some? && f.candidate.None? ==>
        && f.failure.value < |cs| && cs[f.failure.value] == Refused(true)
        && NoneRuns(cs) && forall i | 0 <= i < |cs| :: !cs[i].Deferred?
  {
    hide Settle, SettleIntended, SettleBy;
    SettleMeans(cs);
    SettleByMeans(rule, cs);
    var f := SettleBy(rule, cs);
    if f.failure.Some? && f.candidate.None? {
      forall i | 0 <= i < |cs| ensures !cs[i].Deferred? {
        if cs[i].Deferred? { SomeLastDeferred(cs, i); }
      }
    }
  }

  /** A refusal at the start of a scan that puts nothing off is the one remembered. */
  lemma FirstRefusal(rule: Rule, cs: seq<Class>)
    requires cs != [] && cs[0] == Refused(true) && NoneRuns(cs) && forall i | 0 <= i < |cs| :: !cs[i].Deferred?
    ensures SettleBy(rule, cs) == Fallbacks(None, None, Some(0))
  {
    hide Settle, SettleIntended;
    SettleMeans(cs);
    IntendedRule(cs);
    assert FirstFailure(cs, 0);
  }

  /** Classes for the transitions in the order of a scan from k on: k refused and the others passed by. */
  lemma RefusedFirst(a: Attempt, k: nat, st: Fuzz) returns (cs: seq<Class>)
    requires k < |a.bucket| && CanBe(a, k, st, Refused(true)) && OthersPassedBy(a, k, st)
    ensures Possible(a, k, 0, st, cs) && cs != [] && cs[0] == Refused(true)
    ensures forall i | 0 <= i < |cs| :: !cs[i].Deferred?
  {
    hide CanBe, At;
    var n := |a.bucket|;
    Rotated(n, k, 0);
    cs := [Refused(true)];
    while |cs| < n
      invariant 1 <= |cs| <= n && cs[0] == Refused(true)
      invariant forall j | 0 <= j < |cs| :: PassedAs(a, k, st, j, cs[j])
      decreases n - |cs|
    {
      var j := |cs|;
      AtInjective(n, k, 0, j);
      assert CanBePassedBy(a, At(n, k, j), st);
      var c :| c in {Skipped, Refused(true), Refused(false)} && CanBe(a, At(n, k, j), st, c);
      cs := cs + [c];
    }
    forall j | 0 <= j < |cs| ensures CanBe(a, At(n, k, 0 + j), st, cs[j]) { assert PassedAs(a, k, st, j, cs[j]); }
  }

  ghost predicate PassedAs(a: Attempt, offset: nat, st: Fuzz, j: nat, c: Class)
    requires j < |a.bucket|
  {
    (c.Skipped? || c.Refused?) && CanBe(a, At(|a.bucket|, offset, j), st, c)
  }

  lemma LossCanHappen(a: Attempt, k: nat, st: Fuzz) returns (tape: nat -> Draw)
    requires k < |a.bucket| && CanWithdraw(a, k, st) && OthersPassedBy(a, k, st)
    ensures Withdrawn(a, Redrawn(st, tape, 0))
  {
    hide Visit, SettleBy, At, CanBe, Akin, Redrawn, CheckPreconditions, Possible, OthersPassedBy, Twins;
    var ps := a.bucket[k].transition.preconditions;
    var goal :| Akin(st, goal) && Reprieved(CheckPreconditions(ps, a.env, goal));
    var cs := RefusedFirst(a, k, st);
    PossibleRuns(a, k, st, cs);
    FirstRefusal(a.rule, cs);
    tape := AttemptCanFind(a, k, st, cs, goal);
    Rotated(|a.bucket|, k, 0);
    CheckTwins(ps, a.env, goal, Visit(a, k, 0, Redrawn(st, tape, 0).Advance()).value.st);
  }

  lemma PossibleRuns(a: Attempt, offset: nat, st: Fuzz, cs: seq<Class>)
    requires Possible(a, offset, 0, st, cs)
    ensures NoneRuns(cs) && |cs| == |a.bucket|
  {
  }

  /**
   Over all draws, whatever is fuzzed: some attempt withdraws its refusal just when some transition can be
   refused with an error and then checked without one, and each of the others can be passed by.
   */
  lemma LossPossibleIff(a: Attempt, st: Fuzz)
    ensures (exists tape :: Withdrawn(a, Redrawn(st, tape, 0))) <==> AnswerCanBeLost(a, st)
  {
    hide Withdrawn, CanWithdraw, OthersPassedBy, Akin, Redrawn;
    if tape :| Withdrawn(a, Redrawn(st, tape, 0)) {
      RedrawnAkin(st, tape);
      LossForetold(a, st, Redrawn(st, tape, 0));
    }
    if AnswerCanBeLost(a, st) {
      var k :| 0 <= k < |a.bucket| && CanWithdraw(a, k, st) && OthersPassedBy(a, k, st);
      var tape := LossCanHappen(a, k, st);
    }
  }

  /** The call can go unanswered, by what can be told from each transition on its own. */
  ghost predicate CanLoseAnswer(p: Program, c: Config, e: Event)
    requires e.action.Call?
  {
    AttemptOf(p, c, e).Some? && AnswerCanBeLost(AttemptOf(p, c, e).value, c.fuzz.(pos := 0))
  }

  /** Some draws lose the answer to a call just then. */
  lemma CallCanLoseAnswerIff(p: Program, c: Config, e: Event)
    requires e.action.Call?
    ensures (exists tape :: LosesAnswer(p, c, e.(tape := tape))) <==> CanLoseAnswer(p, c, e)
  {
    hide Withdrawn, AnswerCanBeLost, Bucket, BindArgs, FindInterface;
    if AttemptOf(p, c, e).Some? {
      var a, st := AttemptOf(p, c, e).value, c.fuzz.(pos := 0);
      LossPossibleIff(a, st);
      forall tape: nat -> Draw ensures LosesAnswer(p, c, e.(tape := tape)) <==> Withdrawn(a, Redrawn(st, tape, 0)) {
        assert Redrawn(st, tape, 0) == c.fuzz.(tape := tape, pos := 0);
        assert AttemptOf(p, c, e.(tape := tape)) == Some(a);
      }
    } else {
      forall tape: nat -> Draw ensures !LosesAnswer(p, c, e.(tape := tape)) {
        assert AttemptOf(p, c, e.(tape := tape)) == None;
      }
    }
  }

  // ----- when the fallbacks can clash -------------------------------------------------------------

  /** Some draws have a scan look at the transition and not run it. */
  ghost predicate CanBeLeft(a: Attempt, k: nat, st: Fuzz)
    requires k < |a.bucket|
  {
    CanBePassedBy(a, k, st) || CanBe(a, k, st, Deferred)
  }

  /** One transition can be put off, another can be refused with an error, and the rest need not run. */
  ghost predicate ClashCanBe(a: Attempt, st: Fuzz) {
    a.rule.AsWritten? && exists k, l | 0 <= k < |a.bucket| && 0 <= l < |a.bucket| :: CanClash(a, k, l, st)
  }

  ghost predicate CanClash(a: Attempt, k: nat, l: nat, st: Fuzz)
    requires k < |a.bucket| && l < |a.bucket|
  {
    && k != l && CanBe(a, k, st, Deferred) && CanBe(a, l, st, Refused(true))
    && forall j | 0 <= j < |a.bucket| :: CanBeLeft(a, j, st)
  }

  lemma ClashForetoldFuzzed(a: Attempt, st: Fuzz, st': Fuzz)
    requires Akin(st, st'.Advance()) && Clashes(a, st')
    ensures ClashCanBe(a, st)
  {
    hide Visit, Settle, SettleIntended, SettleBy, At, CanBe, Akin, StopsAtRunnable, Possible, CanClash;
    var offset := st'.Range(0, |a.bucket|);
    var cs := Visit(a, offset, 0, st'.Advance()).value.classes;
    VisitMeans(a, offset, 0, st'.Advance());
    SettleByMeans(a.rule, cs);
    BothFallbacksIff(cs);
    FoundIsPossible(a, offset, st, st'.Advance());
    var i, j :| 0 <= i < j < |cs| && cs[i].Deferred? && cs[j] == Refused(true);
    FoundCanClash(a, offset, st, cs, i, j);
  }

  lemma FoundCanClash(a: Attempt, offset: nat, st: Fuzz, cs: seq<Class>, i: nat, j: nat)
    requires offset < |a.bucket| && Possible(a, offset, 0, st, cs)
    requires i < j < |cs| && cs[i].Deferred? && cs[j] == Refused(true)
    ensures CanClash(a, At(|a.bucket|, offset, i), At(|a.bucket|, offset, j), st)
  {
    hide At, CanBe, Possible;
    var n := |a.bucket|;
    PossibleRuns(a, offset, st, cs);
    PossibleAt(a, offset, st, cs, i);
    PossibleAt(a, offset, st, cs, j);
    AtInjective(n, offset, i, j);
    forall k | 0 <= k < n ensures CanBeLeft(a, k, st) {
      var m := AtSurjective(n, offset, k);
      PossibleAt(a, offset, st, cs, m);
      assert !cs[m].Runnable?;
    }
  }

  /** A class for the j-th transition looked at, which is put off if it is k and refused if it is l. */
  ghost predicate LeftAs(a: Attempt, offset: nat, k: nat, l: nat, st: Fuzz, j: nat, c: Class)
    requires j < |a.bucket|
  {
    var i := At(|a.bucket|, offset, j);
    !c.Runnable? && CanBe(a, i, st, c) && (i == k ==> c.Deferred?) && (i == l ==> c == Refused(true))
  }

  lemma LeftInTurn(a: Attempt, offset: nat, k: nat, l: nat, st: Fuzz) returns (cs: seq<Class>)
    requires k < |a.bucket| && l < |a.bucket| && CanClash(a, k, l, st)
    ensures Possible(a, offset, 0, st, cs) && forall j | 0 <= j < |cs| :: LeftAs(a, offset, k, l, st, j, cs[j])
  {
    hide CanBe, At;
    var n := |a.bucket|;
    cs := [];
    while |cs| < n
      invariant |cs| <= n && forall j | 0 <= j < |cs| :: LeftAs(a, offset, k, l, st, j, cs[j])
      decreases n - |cs|
    {
      var i := At(n, offset, |cs|);
      assert CanBeLeft(a, i, st);
      var c := if i == k then Deferred else if i == l || CanBe(a, i, st, Refused(true)) then Refused(true)
               else if CanBe(a, i, st, Refused(false)) then Refused(false)
               else if CanBe(a, i, st, Skipped) then Skipped else Deferred;
      assert LeftAs(a, offset, k, l, st, |cs|, c);
      cs := cs + [c];
    }
    forall j | 0 <= j < |cs| ensures CanBe(a, At(n, offset, 0 + j), st, cs[j]) && !cs[j].Runnable? {
      assert LeftAs(a, offset, k, l, st, j, cs[j]);
    }
  }

  lemma FuzzedClashCanHappen(a: Attempt, k: nat, l: nat, st: Fuzz) returns (tape: nat -> Draw)
    requires a.rule.AsWritten? && k < |a.bucket| && l < |a.bucket| && CanClash(a, k, l, st)
    ensures Clashes(a, Redrawn(st, tape, 0))
  {
    hide Visit, Settle, At, CanBe, Akin, Redrawn, Possible, Twins, StopsAtRunnable;
    var n := |a.bucket|;
    var offset := if l + 1 < n then l + 1 else 0;
    Rotated(n, offset, n - 1);
    var i := AtSurjective(n, offset, k);
    var cs := LeftInTurn(a, offset, k, l, st);
    PossibleRuns(a, offset, st, cs);
    assert cs[i].Deferred? && cs[n - 1] == Refused(true) by {
      assert LeftAs(a, offset, k, l, st, i, cs[i]) && LeftAs(a, offset, k, l, st, n - 1, cs[n - 1]);
    }
    assert StopsAtRunnable(cs) by { NoneRunsStops(cs); }
    LastThenRefused(cs, i);
    TwinsReflexive(st);
    AkinReflexive(st);
    tape := AttemptCanFind(a, offset, st, cs, st);
  }

  lemma NoneRunsStops(cs: seq<Class>)
    requires NoneRuns(cs)
    ensures StopsAtRunnable(cs)
  {
  }

  lemma AkinReflexive(st: Fuzz)
    ensures Akin(st, st)
  {
  }

  lemma LastThenRefused(cs: seq<Class>, i: nat)
    requires NoneRuns(cs) && StopsAtRunnable(cs) && i < |cs| - 1 && cs[i].Deferred? && cs[|cs| - 1] == Refused(true)
    ensures Settle(cs).candidate.Some? && Settle(cs).failure.Some?
  {
    hide Settle;
    SomeLastDeferred(cs, i);
    var d: nat :| LastDeferred(cs, d);
    BothFallbacksIff(cs);
  }

  /** Over all draws, whatever is fuzzed: some attempt records both fallbacks just then. */
  lemma ClashPossibleIff(a: Attempt, st: Fuzz)
    ensures (exists tape :: Clashes(a, Redrawn(st, tape, 0))) <==> ClashCanBe(a, st)
  {
    hide Clashes, CanClash, Akin, Redrawn;
    if tape :| Clashes(a, Redrawn(st, tape, 0)) {
      RedrawnAkin(st, tape);
      ClashForetoldFuzzed(a, st, Redrawn(st, tape, 0));
    }
    if ClashCanBe(a, st) {
      var k, l :| 0 <= k < |a.bucket| && 0 <= l < |a.bucket| && CanClash(a, k, l, st);
      var tape := FuzzedClashCanHappen(a, k, l, st);
    }
  }

  /** So attempts at accepted transitions without faults of their own can fail, whatever is fuzzed, just then. */
  lemma FuzzedAttemptCanFailIff(a: Attempt, cx: Context, st: Fuzz)
    requires ReadyBucket(a.bucket, cx) && TameBucket(a.bucket, cx, {}) && cx.Usable()
    requires Conforms(a.env) && SameTypes(cx.env, a.env)
    ensures (exists tape :: FindAndExecute(a, Redrawn(st, tape, 0)).Fail?) <==> ClashCanBe(a, st)
  {
    hide FindAndExecute, ReadyBucket, TameBucket, Conforms, SameTypes, Clashes, ClashCanBe, Redrawn;
    ClashPossibleIff(a, st);
    forall tape: nat -> Draw
      ensures FindAndExecute(a, Redrawn(st, tape, 0)).Fail? <==> Clashes(a, Redrawn(st, tape, 0))
    {
      AttemptFailsIff(a, cx, Redrawn(st, tape, 0), {});
    }
  }
}
