/**
 When an attempt fails its closing assertion because both fallbacks are recorded: exactly when a
 transition that throws is put off and a refusal with an error comes after the last of those.
 */
module DoubleFallback {
  import opened Results
  import opened VariantTypes
  import opened Language
  import opened Evaluator
  import opened EffectFree
  import opened Transitions
  import opened Scanning
  import opened Attempts

  // ----- the verdicts without fuzzing -------------------------------------------------------------

  /** The verdict on preconditions that are not fuzzed, or the fault met in working it out. */
  function PlainVerdict(ps: seq<Precondition>, env: Env): Result<Verdict> {
    if ps == [] then Ok(Satisfied) else
      var v :- Plain(ps[0].condition, env);
      if !v.VBool? then Fail(TypeFault)
      else if !v.b then Ok(Unsatisfied(ps[0].error))
      else PlainVerdict(ps[1..], env)
  }

  /** The class of a transition whose preconditions are not fuzzed, before any coin is flipped. */
  function PlainClass(a: Attempt, k: nat): Result<Class>
    requires k < |a.bucket|
  {
    var t := a.bucket[k].transition;
    if a.bucket[k].from != a.state || !a.permits(k) then Ok(Skipped) else
      var verdict :- PlainVerdict(t.preconditions, a.env);
      match verdict
      case Unsatisfied(error) => Ok(Refused(error.Some?))
      case Satisfied => Ok(if t.ContainsThrow() then Deferred else Runnable)
  }

  /** A check that draws nothing. */
  function CheckedAs(r: Result<Verdict>, st: Fuzz): Result<Checked> {
    var v :- r;
    Ok(Checked(v, st))
  }

  lemma {:induction false} VerdictIsPlain(ps: seq<Precondition>, env: Env, st: Fuzz, st': Fuzz)
    requires UnfuzzedPreconditions(ps, st) && SameWeights(st, st')
    ensures CheckPreconditions(ps, env, st') == CheckedAs(PlainVerdict(ps, env), st')
  {
    hide Eval;
    if ps != [] {
      UnfuzzedIsCalm(ps[0].condition, st, st');
      CalmEval(ps[0].condition, env, st');
      VerdictIsPlain(ps[1..], env, st, st');
    }
  }

  /** With fuzzing on a transition that throws is put off only on heads; nothing else is left to chance. */
  function Tossed(enable: bool, r: Result<Class>, st: Fuzz): Result<Classified> {
    var c :- r;
    Ok(if enable && c.Deferred? then Classified(if st.Coin() then Deferred else Runnable, st.Advance())
       else Classified(c, st))
  }

  lemma ClassIsPlain(a: Attempt, k: nat, st: Fuzz, st': Fuzz)
    requires k < |a.bucket| && UnfuzzedPreconditions(a.bucket[k].transition.preconditions, st) && SameWeights(st, st')
    ensures Classify(a, k, st') == Tossed(a.enable, PlainClass(a, k), st')
  {
    hide CheckPreconditions, PlainVerdict;
    VerdictIsPlain(a.bucket[k].transition.preconditions, a.env, st, st');
  }

  // ----- the scan without fuzzing -----------------------------------------------------------------

  /** The i-th transition looked at neither runs nor meets a fault. */
  predicate Passed(a: Attempt, offset: nat, i: nat)
    requires i < |a.bucket|
  {
    var c := PlainClass(a, At(|a.bucket|, offset, i));
    c.Ok? && !c.value.Runnable?
  }

  predicate PutOff(a: Attempt, offset: nat, i: nat)
    requires i < |a.bucket|
  {
    PlainClass(a, At(|a.bucket|, offset, i)) == Ok(Deferred)
  }

  /** How many of the transitions looked at from the i-th on could be put off. */
  function PutOffFrom(a: Attempt, offset: nat, i: nat): nat
    requires i <= |a.bucket|
    decreases |a.bucket| - i
  {
    if i == |a.bucket| then 0 else (if PutOff(a, offset, i) then 1 else 0) + PutOffFrom(a, offset, i + 1)
  }

  /** The next coins all come up heads. */
  predicate Heads(st: Fuzz, n: nat) {
    forall j | st.pos <= j < st.pos + n :: st.tape(j).n % 2 == 1
  }

  predicate GoesThrough(a: Attempt, offset: nat, i: nat, st: Fuzz)
    requires i <= |a.bucket|
  {
    && (forall j | i <= j < |a.bucket| :: Passed(a, offset, j))
    && (a.enable ==> Heads(st, PutOffFrom(a, offset, i)))
  }

  predicate PlainClasses(a: Attempt, offset: nat, i: nat, cs: seq<Class>) {
    && i + |cs| == |a.bucket|
    && forall j | 0 <= j < |cs| :: PlainClass(a, At(|a.bucket|, offset, i + j)) == Ok(cs[j])
  }

  /** A scan looks at everything, and finds the plain classes, just when nothing can run and the coins agree. */
  lemma {:induction false} ScanIsPlain(a: Attempt, offset: nat, i: nat, st: Fuzz, st': Fuzz)
    requires i <= |a.bucket| && UnfuzzedBucket(a.bucket, st) && SameWeights(st, st')
    ensures var v := Visit(a, offset, i, st');
      && (v.Ok? && NoneRuns(v.value.classes) <==> GoesThrough(a, offset, i, st'))
      && (v.Ok? && NoneRuns(v.value.classes) ==> PlainClasses(a, offset, i, v.value.classes))
    decreases |a.bucket| - i
  {
    hide Classify, At, PlainClass, UnfuzzedPreconditions, SameWeights, GoesThrough, PlainClasses, NoneRuns;
    if i == |a.bucket| {
      NothingLeft(a, offset, st');
    } else {
      var k := At(|a.bucket|, offset, i);
      ClassIsPlain(a, k, st, st');
      var c := Classify(a, k, st');
      if c.Ok? && !c.value.kind.Runnable? {
        AdvanceSameWeights(st, st');
        ScanIsPlain(a, offset, i + 1, st, c.value.st);
        ScanStepsPlainly(a, offset, i, c.value.kind, st', c.value.st);
        var rest := Visit(a, offset, i + 1, c.value.st);
        if rest.Ok? { ConsRuns(c.value.kind, rest.value.classes); }
        if rest.Ok? && NoneRuns(rest.value.classes) { ConsPlain(a, offset, i, c.value.kind, rest.value.classes); }
      } else {
        NotThrough(a, offset, i, st');
        RunnableRuns();
      }
    }
  }

  lemma NothingLeft(a: Attempt, offset: nat, st: Fuzz)
    ensures GoesThrough(a, offset, |a.bucket|, st) && PlainClasses(a, offset, |a.bucket|, []) && NoneRuns([])
  {
  }

  lemma RunnableRuns()
    ensures !NoneRuns([Runnable])
  {
    assert [Runnable][0].Runnable?;
  }

  lemma AdvanceSameWeights(st: Fuzz, st': Fuzz)
    requires SameWeights(st, st')
    ensures SameWeights(st, st'.Advance())
  {
    forall id: nat ensures st'.Advance().Weight(id) == st.Weight(id) { assert st'.Weight(id) == st.Weight(id); }
  }

  lemma ConsRuns(c: Class, cs: seq<Class>)
    requires !c.Runnable?
    ensures NoneRuns([c] + cs) <==> NoneRuns(cs)
  {
    assert forall i | 0 <= i < |cs| :: ([c] + cs)[i + 1] == cs[i];
  }

  lemma ConsPlain(a: Attempt, offset: nat, i: nat, c: Class, cs: seq<Class>)
    requires i < |a.bucket| && PlainClass(a, At(|a.bucket|, offset, i)) == Ok(c) && PlainClasses(a, offset, i + 1, cs)
    ensures PlainClasses(a, offset, i, [c] + cs)
  {
    hide PlainClass, At;
    forall j | 0 < j < |[c] + cs| ensures PlainClass(a, At(|a.bucket|, offset, i + j)) == Ok(([c] + cs)[j]) {
      assert ([c] + cs)[j] == cs[j - 1] && i + j == (i + 1) + (j - 1);
    }
  }

  lemma ScanStepsPlainly(a: Attempt, offset: nat, i: nat, c: Class, st: Fuzz, st': Fuzz)
    requires i < |a.bucket| && !c.Runnable? && PlainClass(a, At(|a.bucket|, offset, i)) == Ok(c)
    requires if a.enable && c.Deferred? then st.Coin() && st' == st.Advance() else st' == st
    ensures GoesThrough(a, offset, i, st) <==> GoesThrough(a, offset, i + 1, st')
  {
    hide PlainClass, At;
    assert PutOffFrom(a, offset, i) == (if c.Deferred? then 1 else 0) + PutOffFrom(a, offset, i + 1);
    assert Passed(a, offset, i);
    if a.enable && c.Deferred? {
      var n := PutOffFrom(a, offset, i + 1);
      assert Heads(st, n + 1) <==> Heads(st', n);
    }
  }

  lemma NotThrough(a: Attempt, offset: nat, i: nat, st: Fuzz)
    requires i < |a.bucket|
    requires var c := PlainClass(a, At(|a.bucket|, offset, i));
      c.Fail? || c.value.Runnable? || (a.enable && c.value.Deferred? && !st.Coin())
    ensures !GoesThrough(a, offset, i, st)
  {
    hide PlainClass, At;
    var c := PlainClass(a, At(|a.bucket|, offset, i));
    if c.Ok? && c.value.Deferred? {
      assert PutOffFrom(a, offset, i) >= 1 && !Heads(st, PutOffFrom(a, offset, i));
    } else {
      assert !Passed(a, offset, i);
    }
  }

  // ----- when both fallbacks are recorded ---------------------------------------------------------

  /** The scan from this offset ends with both fallbacks recorded. */
  predicate BothRecorded(a: Attempt, offset: nat, st: Fuzz) {
    var v := Visit(a, offset, 0, st);
    v.Ok? && SettleBy(a.rule, v.value.classes).candidate.Some? && SettleBy(a.rule, v.value.classes).failure.Some?
  }

  /** The j-th transition looked at is refused with an error, after one that was put off and before no other. */
  predicate RefusedLast(a: Attempt, offset: nat, j: nat)
    requires j < |a.bucket|
  {
    && PlainClass(a, At(|a.bucket|, offset, j)) == Ok(Refused(true))
    && (exists i | 0 <= i < j :: PutOff(a, offset, i))
    && (forall d | j < d < |a.bucket| :: !PutOff(a, offset, d))
  }

  /** For given draws: just when nothing runs and the last transition put off is followed by a refusal with an error. */
  lemma BothRecordedIff(a: Attempt, offset: nat, st: Fuzz)
    requires offset < |a.bucket| && UnfuzzedBucket(a.bucket, st)
    ensures BothRecorded(a, offset, st) <==>
      a.rule.AsWritten? && GoesThrough(a, offset, 0, st) && exists j | 0 <= j < |a.bucket| :: RefusedLast(a, offset, j)
  {
    hide Visit, PlainClass, At, Settle, SettleBy, UnfuzzedBucket, GoesThrough, StopsAtRunnable, PlainClasses;
    DrawsKeepWeights(st, st);
    ScanIsPlain(a, offset, 0, st, st);
    var v := Visit(a, offset, 0, st);
    if v.Ok? {
      var cs := v.value.classes;
      VisitMeans(a, offset, 0, st);
      SettleByMeans(a.rule, cs);
      BothFallbacksIff(cs);
      if NoneRuns(cs) { LastRefusals(a, offset, cs); }
    }
  }

  lemma LastRefusals(a: Attempt, offset: nat, cs: seq<Class>)
    requires PlainClasses(a, offset, 0, cs)
    ensures (exists j | 0 <= j < |a.bucket| :: RefusedLast(a, offset, j)) <==>
      exists i, j | 0 <= i < j < |cs| :: cs[i].Deferred? && cs[j] == Refused(true) && LastDeferred(cs, i)
  {
    hide PlainClass, At;
    assert forall j | 0 <= j < |cs| :: PlainClass(a, At(|a.bucket|, offset, j)) == Ok(cs[j]) by {
      assert forall j | 0 <= j < |cs| :: PlainClass(a, At(|a.bucket|, offset, 0 + j)) == Ok(cs[j]);
    }
    if j :| 0 <= j < |a.bucket| && RefusedLast(a, offset, j) {
      var i :| 0 <= i < j && PutOff(a, offset, i);
      SomeLastDeferred(cs, i);
      var l: nat :| LastDeferred(cs, l);
      assert PutOff(a, offset, l) && l < j;
    }
    if i, j :| 0 <= i < j < |cs| && cs[i].Deferred? && cs[j] == Refused(true) && LastDeferred(cs, i) {
      assert PutOff(a, offset, i) && RefusedLast(a, offset, j);
    }
  }

  // ----- over all draws ---------------------------------------------------------------------------

  /** No check of a precondition meets a fault, and no transition that does not throw can run. */
  predicate NothingRuns(a: Attempt) {
    forall k | 0 <= k < |a.bucket| :: PlainClass(a, k).Ok? && !PlainClass(a, k).value.Runnable?
  }

  /** What can be told before the attempt: one transition could be put off, and one is refused with an error. */
  predicate FallbacksClash(a: Attempt) {
    && a.rule.AsWritten? && NothingRuns(a)
    && (exists k | 0 <= k < |a.bucket| :: PlainClass(a, k) == Ok(Deferred))
    && (exists k | 0 <= k < |a.bucket| :: PlainClass(a, k) == Ok(Refused(true)))
  }

  lemma PassesIff(a: Attempt, offset: nat)
    requires offset < |a.bucket|
    ensures NothingRuns(a) <==> forall j | 0 <= j < |a.bucket| :: Passed(a, offset, j)
  {
    hide PlainClass, At;
    if forall j | 0 <= j < |a.bucket| :: Passed(a, offset, j) {
      forall k | 0 <= k < |a.bucket| ensures PlainClass(a, k).Ok? && !PlainClass(a, k).value.Runnable? {
        var j := AtSurjective(|a.bucket|, offset, k);
        assert Passed(a, offset, j);
      }
    }
  }

  /** With one transition put off and one refused, some offset has the refusal looked at last. */
  lemma ClashingOffset(a: Attempt) returns (offset: nat)
    requires FallbacksClash(a)
    ensures a.rule.AsWritten? && offset < |a.bucket| && RefusedLast(a, offset, |a.bucket| - 1)
    ensures forall j | 0 <= j < |a.bucket| :: Passed(a, offset, j)
  {
    hide PlainClass, At, NothingRuns;
    var n := |a.bucket|;
    var k :| 0 <= k < n && PlainClass(a, k) == Ok(Deferred);
    var k' :| 0 <= k' < n && PlainClass(a, k') == Ok(Refused(true));
    offset := if k' + 1 < n then k' + 1 else 0;
    Rotated(n, offset, n - 1);
    assert At(n, offset, n - 1) == k';
    var i := AtSurjective(n, offset, k);
    assert PutOff(a, offset, i) && i < n - 1;
    PassesIff(a, offset);
  }

  /** A recorded clash could have been foretold. */
  lemma ClashForetold(a: Attempt, offset: nat, st: Fuzz)
    requires offset < |a.bucket| && UnfuzzedBucket(a.bucket, st) && BothRecorded(a, offset, st)
    ensures FallbacksClash(a)
  {
    hide BothRecorded, PlainClass, At, UnfuzzedBucket, NothingRuns, PutOffFrom;
    BothRecordedIff(a, offset, st);
    PassesIff(a, offset);
    var j :| 0 <= j < |a.bucket| && RefusedLast(a, offset, j);
    var i :| 0 <= i < j && PutOff(a, offset, i);
    assert PlainClass(a, At(|a.bucket|, offset, i)) == Ok(Deferred);
  }

  lemma BucketStaysUnfuzzed(bucket: seq<Arc>, st: Fuzz, st': Fuzz)
    requires UnfuzzedBucket(bucket, st) && SameWeights(st, st')
    ensures UnfuzzedBucket(bucket, st')
  {
    hide UnfuzzedPreconditions, SameWeights;
    forall k | 0 <= k < |bucket| ensures UnfuzzedPreconditions(bucket[k].transition.preconditions, st') {
      UnfuzzedPersists(bucket[k].transition.preconditions, st, st');
    }
  }

  /** The same weights and other draws, from the same position or a later one. */
  function Redrawn(st: Fuzz, tape: nat -> Draw, skip: nat): (st': Fuzz)
    ensures SameWeights(st, st')
  {
    var st' := st.(tape := tape, pos := st.pos + skip);
    assert forall id: nat :: st'.Weight(id) == st.Weight(id);
    st'
  }

  /** Where the fallbacks clash and all coins come up heads, the scan from the clashing offset records both. */
  lemma ClashRecorded(a: Attempt, offset: nat, st: Fuzz, st': Fuzz)
    requires a.rule.AsWritten? && offset < |a.bucket| && UnfuzzedBucket(a.bucket, st) && SameWeights(st, st')
    requires RefusedLast(a, offset, |a.bucket| - 1) && forall j | 0 <= j < |a.bucket| :: Passed(a, offset, j)
    requires forall j | st'.pos <= j :: st'.tape(j).n % 2 == 1
    ensures BothRecorded(a, offset, st')
  {
    hide BothRecorded, RefusedLast, UnfuzzedBucket, PutOffFrom, SameWeights, Passed;
    BucketStaysUnfuzzed(a.bucket, st, st');
    BothRecordedIff(a, offset, st');
    assert Heads(st', PutOffFrom(a, offset, 0));
  }

  const ALL_HEADS: nat -> Draw := (i: nat) => Draw(1, "", 0.0, TBool)

  /**
   Over all draws, with fuzzing on or off: some scan records both fallbacks just when no transition can run,
   one that throws could, and one is refused with an error.
   */
  lemma BothRecordedPossibleIff(a: Attempt, st: Fuzz)
    requires UnfuzzedBucket(a.bucket, st)
    ensures (exists tape, offset | 0 <= offset < |a.bucket| :: BothRecorded(a, offset, Redrawn(st, tape, 0))) <==>
      FallbacksClash(a)
  {
    hide BothRecorded, UnfuzzedBucket, FallbacksClash, SameWeights;
    if tape, offset :| 0 <= offset < |a.bucket| && BothRecorded(a, offset, Redrawn(st, tape, 0)) {
      BucketStaysUnfuzzed(a.bucket, st, Redrawn(st, tape, 0));
      ClashForetold(a, offset, Redrawn(st, tape, 0));
    }
    if FallbacksClash(a) {
      var offset := ClashingOffset(a);
      ClashRecorded(a, offset, st, Redrawn(st, ALL_HEADS, 0));
    }
  }

  // ----- attempts ---------------------------------------------------------------------------------

  /** The draws of this attempt lead its scan to record both fallbacks. */
  predicate Clashes(a: Attempt, st: Fuzz) {
    a.bucket != [] && BothRecorded(a, st.Range(0, |a.bucket|), st.Advance())
  }

  /** An attempt at accepted transitions fails its closing assertion only then, and always goes wrong then. */
  lemma AttemptFailsIff(a: Attempt, cx: Context, st: Fuzz, fs: set<Fault>)
    requires ReadyBucket(a.bucket, cx) && TameBucket(a.bucket, cx, fs) && cx.Usable()
    requires Conforms(a.env) && SameTypes(cx.env, a.env)
    ensures FindAndExecute(a, st) == Fail(BothFallbacks) ==> Clashes(a, st)
    ensures Clashes(a, st) ==> FindAndExecute(a, st).Fail?
    ensures fs == {} ==> (FindAndExecute(a, st).Fail? <==> Clashes(a, st))
  {
    hide Visit, SettleBy, Conclude, ReadyBucket, TameBucket, Conforms, SameTypes;
    AttemptSound(a, cx, st, fs);
    if a.bucket != [] {
      var offset := st.Range(0, |a.bucket|);
      VisitSound(a, offset, 0, cx, st.Advance(), fs);
      var v := Visit(a, offset, 0, st.Advance());
      if v.Ok? { ConcludeSound(a, offset, SettleBy(a.rule, v.value.classes), cx, v.value.st, fs); }
    }
  }

  function OffsetThenHeads(pos: nat, offset: nat): nat -> Draw {
    (i: nat) => Draw(if i == pos then offset else 1, "", 0.0, TBool)
  }

  lemma FirstDraw(st: Fuzz, offset: nat, n: nat)
    requires offset < n
    ensures var st' := Redrawn(st, OffsetThenHeads(st.pos, offset), 0);
      st'.Range(0, n) == offset && st'.Advance() == Redrawn(st, OffsetThenHeads(st.pos, offset), 1)
    ensures var st' := Redrawn(st, OffsetThenHeads(st.pos, offset), 1);
      forall j | st'.pos <= j :: st'.tape(j).n % 2 == 1
  {
  }

  lemma ClashCanHappen(a: Attempt, st: Fuzz) returns (tape: nat -> Draw)
    requires FallbacksClash(a) && UnfuzzedBucket(a.bucket, st)
    ensures Clashes(a, Redrawn(st, tape, 0))
  {
    hide UnfuzzedBucket, FallbacksClash, BothRecorded, SameWeights, RefusedLast, Passed, OffsetThenHeads, Redrawn;
    var offset := ClashingOffset(a);
    tape := OffsetThenHeads(st.pos, offset);
    FirstDraw(st, offset, |a.bucket|);
    ClashRecorded(a, offset, st, Redrawn(st, tape, 1));
  }

  lemma ClashNeedsFallbacks(a: Attempt, st: Fuzz, st': Fuzz)
    requires UnfuzzedBucket(a.bucket, st) && SameWeights(st, st') && Clashes(a, st')
    ensures FallbacksClash(a)
  {
    hide UnfuzzedBucket, FallbacksClash, BothRecorded, SameWeights;
    AdvanceSameWeights(st, st');
    BucketStaysUnfuzzed(a.bucket, st, st'.Advance());
    ClashForetold(a, st'.Range(0, |a.bucket|), st'.Advance());
  }

  /**
   Where preconditions are not fuzzed and nothing has a fault of its own, some draws make an attempt at
   accepted transitions fail just when the fallbacks clash, which can be told before the attempt.
   */
  lemma AttemptCanFailIff(a: Attempt, cx: Context, st: Fuzz)
    requires ReadyBucket(a.bucket, cx) && TameBucket(a.bucket, cx, {}) && cx.Usable()
    requires Conforms(a.env) && SameTypes(cx.env, a.env) && UnfuzzedBucket(a.bucket, st)
    ensures (exists tape :: FindAndExecute(a, Redrawn(st, tape, 0)).Fail?) <==> FallbacksClash(a)
  {
    hide FindAndExecute, ReadyBucket, TameBucket, UnfuzzedBucket, Conforms, SameTypes;
    hide SameWeights, FallbacksClash, Clashes;
    if tape :| FindAndExecute(a, Redrawn(st, tape, 0)).Fail? {
      AttemptFailsIff(a, cx, Redrawn(st, tape, 0), {});
      ClashNeedsFallbacks(a, st, Redrawn(st, tape, 0));
    }
    if FallbacksClash(a) {
      var tape := ClashCanHappen(a, st);
      AttemptFailsIff(a, cx, Redrawn(st, tape, 0), {});
    }
  }

  predicate ThrowingPrecondition(t: Transition) {
    exists i | 0 <= i < |t.preconditions| :: t.preconditions[i].error.Some?
  }

  /** No two transitions with one trigger out of one state can give a scan both of its fallbacks. */
  predicate OneKindOfFallback(arcs: seq<Arc>) {
    forall k, l | 0 <= k < |arcs| && 0 <= l < |arcs| ::
      arcs[k].from == arcs[l].from && arcs[k].transition.trigger == arcs[l].transition.trigger ==>
        !(arcs[k].transition.ContainsThrow() && ThrowingPrecondition(arcs[l].transition))
  }

  lemma MayBeDeferred(a: Attempt, k: nat, st: Fuzz)
    requires k < |a.bucket|
    ensures MayBe(a, k, st, Deferred) ==> a.bucket[k].from == a.state && a.bucket[k].transition.ContainsThrow()
    ensures MayBe(a, k, st, Refused(true)) ==>
      a.bucket[k].from == a.state && ThrowingPrecondition(a.bucket[k].transition)
  {
    hide CheckPreconditions;
    forall st' | Classify(a, k, st').Ok?
      ensures Classify(a, k, st').value.kind == Refused(true) ==> ThrowingPrecondition(a.bucket[k].transition)
    {
      ClassifyOnlyDraws(a, k, st');
    }
  }

  /** Transitions with one kind of fallback never record both, whatever is fuzzed. */
  lemma NotBothRecorded(a: Attempt, offset: nat, st: Fuzz)
    requires a.bucket != [] && OneKindOfFallback(a.bucket)
    requires forall k, l | 0 <= k < |a.bucket| && 0 <= l < |a.bucket| ::
      a.bucket[k].transition.trigger == a.bucket[l].transition.trigger
    ensures !BothRecorded(a, offset, st)
  {
    hide Visit, SettleBy, MayBe, StopsAtRunnable, At, OneKindOfFallback;
    if BothRecorded(a, offset, st) {
      var cs := Visit(a, offset, 0, st).value.classes;
      VisitMeans(a, offset, 0, st);
      SettleByMeans(a.rule, cs);
      var i, j := SettleBy(a.rule, cs).candidate.value, SettleBy(a.rule, cs).failure.value;
      var k, l := At(|a.bucket|, offset, i), At(|a.bucket|, offset, j);
      assert MayBe(a, At(|a.bucket|, offset, 0 + i), st, Deferred);
      assert MayBe(a, At(|a.bucket|, offset, 0 + j), st, Refused(true));
      MayBeDeferred(a, k, st);
      MayBeDeferred(a, l, st);
      NotOneKind(a.bucket, k, l);
    }
  }

  lemma NotOneKind(arcs: seq<Arc>, k: nat, l: nat)
    requires k < |arcs| && l < |arcs| && arcs[k].from == arcs[l].from
    requires arcs[k].transition.trigger == arcs[l].transition.trigger
    requires arcs[k].transition.ContainsThrow() && ThrowingPrecondition(arcs[l].transition)
    ensures !OneKindOfFallback(arcs)
  {
  }

}
