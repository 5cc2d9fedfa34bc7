/**
 Progress: an accepted and guarded program without faults of its own never gets stuck, if its transitions
 give a scan only one kind of fallback or the scan follows the intended rule; and then every call of every
 run is answered. The intended rule changes no run that the code gets through.
 */
module Progress {
  import opened Results
  import opened VariantTypes
  import opened Language
  import opened Evaluator
  import opened UniqueKeys
  import opened Transitions
  import opened Scanning
  import opened Machines
  import opened Runs
  import opened Answers
  import opened Possibilities
  import opened UniqueRuns

  /** A program without faults of its own, whose fallbacks never clash. */
  predicate SafeProgram(p: Program) {
    ReadyProgram(p) && TameProgram(p, {}) && !MayClash(p)
  }

  /** One that may use dictSet(), and has no source of repeated keys. */
  predicate SafeWithoutRepeats(p: Program, hot: set<nat>) {
    ReadyProgram(p) && TameProgram(p, {DuplicateKey}) && RepeatFreeProgram(p, hot) && !MayClash(p)
  }

  ghost predicate SafeRun(p: Program, st0: Fuzz, es: seq<Event>, hot: set<nat>) {
    && (forall i | 0 <= i < |es| :: EventFits(p, es[i]))
    && (SafeProgram(p) ||
        (SafeWithoutRepeats(p, hot) && HotOnly(st0, hot)
         && forall i | 0 <= i < |es| :: UniqueEvent(es[i]) && EnablesOnly(es[i].enable, st0, hot)))
  }

  /** A safe program never gets stuck, whatever happens to it and whatever is drawn. */
  lemma RunNeverFails(p: Program, st0: Fuzz, es: seq<Event>, hot: set<nat>)
    requires SafeRun(p, st0, es, hot)
    ensures Run(p, Start(p, st0), es).Ok?
  {
    hide Invariant, ReadyProgram, TameProgram, RepeatFreeProgram, MayClash, EventFits;
    hide UniqueEvent, EnablesOnly, HotOnly, Run;
    if SafeProgram(p) {
      RunKeepsInvariant(p, st0, es, {});
    } else {
      RunKeepsInvariant(p, st0, es, {DuplicateKey});
      RunUnique(p, st0, es, hot);
    }
  }

  /**
   Every step of every run of a safe program succeeds, and answers a call exactly once unless a fuzzed
   precondition makes the machine withdraw its refusal. Nothing else is answered.
   */
  lemma EveryCallIsAnswered(p: Program, st0: Fuzz, es: seq<Event>, e: Event, hot: set<nat>)
    requires SafeRun(p, st0, es + [e], hot)
    ensures Run(p, Start(p, st0), es + [e]).Ok? && Run(p, Start(p, st0), es).Ok?
    ensures var c := Run(p, Start(p, st0), es).value;
      && Step(p, c, e).Ok?
      && AnswerCount(Step(p, c, e).value.out) == (if e.action.Call? && !LosesAnswer(p, c, e) then 1 else 0)
      && (UnfuzzedProgram(p, st0) ==> !LosesAnswer(p, c, e))
  {
    hide ReadyProgram, TameProgram, RepeatFreeProgram, MayClash, EventFits, UniqueEvent, EnablesOnly, HotOnly, Step;
    hide UnfuzzedProgram, LosesAnswer;
    var all := es + [e];
    assert all[..|all| - 1] == es && all[|all| - 1] == e;
    RunNeverFails(p, st0, all, hot);
    forall i | 0 <= i < |es| ensures EventFits(p, es[i]) { assert all[i] == es[i]; }
    EveryCallIsAnsweredOnce(p, st0, es, e);
  }

  /** The step succeeds and answers once. */
  predicate AnsweredByStep(p: Program, c: Config, e: Event) {
    Step(p, c, e).Ok? && AnswerCount(Step(p, c, e).value.out) == 1
  }

  /** A call is answered whatever is drawn just when no draws could lose its answer, told from each transition. */
  lemma AlwaysAnsweredIff(p: Program, st0: Fuzz, es: seq<Event>, e: Event, hot: set<nat>)
    requires SafeRun(p, st0, es + [e], hot) && e.action.Call?
    ensures Run(p, Start(p, st0), es).Ok?
    ensures var c := Run(p, Start(p, st0), es).value;
      (forall tape :: AnsweredByStep(p, c, e.(tape := tape))) <==> !CanLoseAnswer(p, c, e)
  {
    hide SafeRun, Step, LosesAnswer, CanLoseAnswer, Run;
    EveryCallIsAnswered(p, st0, es, e, hot);
    var c := Run(p, Start(p, st0), es).value;
    CallCanLoseAnswerIff(p, c, e);
    forall tape: nat -> Draw
      ensures AnsweredByStep(p, c, e.(tape := tape)) <==> !LosesAnswer(p, c, e.(tape := tape))
    {
      OtherDrawsAreSafe(p, st0, es, e, tape, hot);
      EveryCallIsAnswered(p, st0, es, e.(tape := tape), hot);
    }
  }

  lemma OtherDrawsAreSafe(p: Program, st0: Fuzz, es: seq<Event>, e: Event, tape: nat -> Draw, hot: set<nat>)
    requires SafeRun(p, st0, es + [e], hot)
    ensures SafeRun(p, st0, es + [e.(tape := tape)], hot)
  {
    hide SafeProgram, SafeWithoutRepeats, HotOnly, EnablesOnly;
    var all, all' := es + [e], es + [e.(tape := tape)];
    forall i | 0 <= i < |all'|
      ensures EventFits(p, all'[i]) && (UniqueEvent(all[i]) ==> UniqueEvent(all'[i])) && all'[i].enable == all[i].enable
    {
      assert EventFits(p, all[i]);
      assert all'[i].action == all[i].action && all'[i].enable == all[i].enable;
    }
  }

  /** The intended rule makes any accepted and guarded program safe that has no other faults. */
  lemma IntendedRuleIsSafe(p: Program, hot: set<nat>)
    requires ReadyProgram(p)
    ensures TameProgram(p, {}) ==> SafeProgram(MendedProgram(p))
    ensures TameProgram(p, {DuplicateKey}) && RepeatFreeProgram(p, hot) ==> SafeWithoutRepeats(MendedProgram(p), hot)
  {
    hide AcceptedTransition, GuardedTransition, TameTransition, RepeatFreeTransition, UniqueEnv, Conforms;
    var q := MendedProgram(p);
    assert forall trigger :: ContextFor(q, trigger) == ContextFor(p, trigger);
  }

  // ----- the intended rule against the rule as written --------------------------------------------

  function Mended(a: Attempt): Attempt {
    a.(rule := Intended)
  }

  lemma {:induction false} VisitIgnoresRule(a: Attempt, offset: nat, i: nat, st: Fuzz)
    requires i <= |a.bucket|
    ensures Visit(Mended(a), offset, i, st) == Visit(a, offset, i, st)
    decreases |a.bucket| - i
  {
    hide CheckPreconditions;
    if i < |a.bucket| {
      var c := Classify(a, At(|a.bucket|, offset, i), st);
      if c.Ok? { VisitIgnoresRule(a, offset, i + 1, c.value.st); }
    }
  }

  /** An attempt that the rule as written gets through goes the same way under the intended rule. */
  lemma AttemptAgrees(a: Attempt, st: Fuzz)
    requires a.rule.AsWritten? && FindAndExecute(a, st).Ok?
    ensures FindAndExecute(Mended(a), st) == FindAndExecute(a, st)
  {
    hide Visit, Settle, SettleIntended, ExecuteTransition, ReportFailure, At;
    if a.bucket != [] {
      var offset := st.Range(0, |a.bucket|);
      VisitIgnoresRule(a, offset, 0, st.Advance());
      IntendedRule(Visit(a, offset, 0, st.Advance()).value.classes);
    }
  }

  function MendedProgram(p: Program): Program {
    p.(rule := Intended)
  }

  lemma StepAgrees(p: Program, c: Config, e: Event)
    requires p.rule.AsWritten? && Step(p, c, e).Ok?
    ensures Step(MendedProgram(p), c, e) == Step(p, c, e)
  {
    hide FindAndExecute, Bucket, BindArgs, UnbindArgs, SetDefault, FindInterface;
    var fuzz := c.fuzz.(tape := e.tape, pos := 0);
    match e.action
    case Call(i, m, params) =>
      var bucket, found := Bucket(p.arcs, MethodCall(m)), FindInterface(p.interfaces, i);
      if bucket != [] && found.Some? && m in found.value.methods {
        var bound := BindArgs(c.env, found.value.methods[m].inArgs, params).value;
        AttemptAgrees(Attempt(bucket, c.state, bound, e.enable, e.permits, p.rule), fuzz);
      }
    case Set(name, v) =>
      var bucket := Bucket(p.arcs, PropertySet(name));
      if bucket != [] {
        var bound := BindArgs(c.env, [Arg("value", TypeOf(v))], [v]).value;
        AttemptAgrees(Attempt(bucket, c.state, bound, e.enable, e.permits, p.rule), fuzz);
      }
    case Timeout =>
      AttemptAgrees(Attempt(Bucket(p.arcs, Arbitrary), c.state, c.env, e.enable, e.permits, p.rule), fuzz);
    case Restart =>
  }

  /** The intended rule changes no run that the rule as written gets through. */
  lemma {:induction false} RunAgrees(p: Program, c: Config, es: seq<Event>)
    requires p.rule.AsWritten? && Run(p, c, es).Ok?
    ensures Run(MendedProgram(p), c, es) == Run(p, c, es)
    decreases |es|
  {
    hide Step;
    if es != [] {
      RunAgrees(p, c, es[..|es| - 1]);
      StepAgrees(p, Run(p, c, es[..|es| - 1]).value, es[|es| - 1]);
    }
  }
}
