/**
 What the reachability analysis says about real runs: a state it calls unreachable is never entered, and
 a state it calls reachable is the end of an actual run, unless transitions that throw are in the way.
 */
module Lint {
  import opened Results
  import opened Numbers
  import opened VariantTypes
  import opened Language
  import opened Evaluator
  import opened EffectFree
  import opened Statements
  import opened Transitions
  import opened Scanning
  import opened Attempts
  import opened Machines
  import opened Runs
  import opened Steps
  import opened UniqueKeys
  import opened UniqueRuns
  import opened Reachability

  /** The transition as the analysis sees it. */
  function EdgeOf(arc: Arc): Edge {
    Edge(arc.from, arc.to, arc.transition.preconditions == [])
  }

  function Edges(arcs: seq<Arc>): (es: seq<Edge>)
    ensures |es| == |arcs| && forall k | 0 <= k < |arcs| :: es[k] == EdgeOf(arcs[k])
  {
    seq(|arcs|, k requires 0 <= k < |arcs| => EdgeOf(arcs[k]))
  }

  // ----- soundness --------------------------------------------------------------------------------

  /** Some registered transition that does not throw leads from one state to the other. */
  predicate Connected(arcs: seq<Arc>, f: nat, t: nat) {
    exists k | 0 <= k < |arcs| :: arcs[k].from == f && arcs[k].to == t && !arcs[k].transition.ContainsThrow()
  }

  lemma AttemptConnected(p: Program, trigger: Trigger, a: Attempt, st: Fuzz)
    requires a.bucket == Bucket(p.arcs, trigger) && FindAndExecute(a, st).Ok?
    ensures var s := FindAndExecute(a, st).value.outcome.state; s == a.state || Connected(p.arcs, a.state, s)
  {
    hide FindAndExecute;
    AttemptMoves(a, st);
    BucketMeans(p.arcs, trigger);
    var s := FindAndExecute(a, st).value.outcome.state;
    if s != a.state {
      var k :| 0 <= k < |a.bucket| && MovesAlong(a, k, s);
      assert a.bucket[k] in p.arcs;
    }
  }

  /** A step stays, goes back to the start, or follows a registered transition. */
  lemma StepConnected(p: Program, c: Config, e: Event)
    requires Step(p, c, e).Ok?
    ensures var s := Step(p, c, e).value.config.state;
      s == c.state || (s == 0 && e.action.Restart?) || Connected(p.arcs, c.state, s)
  {
    hide FindAndExecute, Bucket, Connected;
    var fuzz := c.fuzz.(tape := e.tape, pos := 0);
    match e.action
    case Call(i, m, params) =>
      var found := FindInterface(p.interfaces, i);
      var bucket := Bucket(p.arcs, MethodCall(m));
      if bucket != [] && found.Some? && m in found.value.methods {
        var bound := BindArgs(c.env, found.value.methods[m].inArgs, params).value;
        AttemptConnected(p, MethodCall(m), Attempt(bucket, c.state, bound, e.enable, e.permits, p.rule), fuzz);
      }
    case Set(name, v) =>
      var bucket := Bucket(p.arcs, PropertySet(name));
      if bucket != [] {
        var bound := BindArgs(c.env, [Arg("value", TypeOf(v))], [v]).value;
        AttemptConnected(p, PropertySet(name), Attempt(bucket, c.state, bound, e.enable, e.permits, p.rule), fuzz);
      }
    case Timeout =>
      var a := Attempt(Bucket(p.arcs, Arbitrary), c.state, c.env, e.enable, e.permits, p.rule);
      AttemptConnected(p, Arbitrary, a, fuzz);
    case Restart =>
  }

  /** Transitions among which are all those of the machine that do not throw. */
  predicate CoversMoves(arcs: seq<Arc>, p: Program) {
    forall k | 0 <= k < |p.arcs| && !p.arcs[k].transition.ContainsThrow() :: p.arcs[k] in arcs
  }

  lemma ConnectedLevel(p: Program, arcs: seq<Arc>, f: nat, t: nat)
    requires CoversMoves(arcs, p) && Connected(p.arcs, f, t)
    ensures EdgeLevel(Edges(arcs), f, t) >= POSSIBLY_REACHABLE
  {
    var k :| 0 <= k < |p.arcs| && p.arcs[k].from == f && p.arcs[k].to == t && !p.arcs[k].transition.ContainsThrow();
    var j :| 0 <= j < |arcs| && arcs[j] == p.arcs[k];
    assert Edges(arcs)[j] in Edges(arcs);
    EdgeLevelMeans(Edges(arcs), f, t);
  }

  predicate StatesWithin(p: Program) {
    p.states > 0 && forall k | 0 <= k < |p.arcs| :: p.arcs[k].from < p.states && p.arcs[k].to < p.states
  }

  /** The state a run ends in has a path, of transitions that do not throw, that is at least possible. */
  lemma {:induction false} RunFollowsPath(p: Program, arcs: seq<Arc>, st0: Fuzz, es: seq<Event>)
    requires StatesWithin(p) && CoversMoves(arcs, p) && Run(p, Start(p, st0), es).Ok?
    ensures Achieved(Edges(arcs), p.states, Run(p, Start(p, st0), es).value.state, POSSIBLY_REACHABLE)
    decreases |es|
  {
    hide Step, EdgeLevel, Connected, CoversMoves;
    var g := Edges(arcs);
    AchieveInitially(g, p.states, 0);
    AchievedBelow(g, p.states, 0, REACHABLE);
    if es != [] {
      RunFollowsPath(p, arcs, st0, es[..|es| - 1]);
      var c := Run(p, Start(p, st0), es[..|es| - 1]).value;
      var s := Step(p, c, es[|es| - 1]).value.config.state;
      StepConnected(p, c, es[|es| - 1]);
      if s != c.state && s != 0 {
        ConnectedWithin(p, c.state, s);
        ConnectedLevel(p, arcs, c.state, s);
        AchieveStep(g, p.states, c.state, POSSIBLY_REACHABLE, s);
        AchievedBelow(g, p.states, s, Min(POSSIBLY_REACHABLE, EdgeLevel(g, c.state, s)));
      }
    }
  }

  lemma ConnectedWithin(p: Program, f: nat, t: nat)
    requires StatesWithin(p) && Connected(p.arcs, f, t)
    ensures t < p.states
  {
  }

  lemma AchievedBelow(es: seq<Edge>, n: nat, s: nat, r: nat)
    requires Achieved(es, n, s, r) && r >= POSSIBLY_REACHABLE
    ensures Achieved(es, n, s, POSSIBLY_REACHABLE)
  {
    var p :| IsPath(p, n, s) && PathLevel(es, p) >= r;
    assert PathLevel(es, p) >= POSSIBLY_REACHABLE;
  }

  /** Lint is sound: no run of any machine, whatever is called and drawn, enters a state called unreachable. */
  lemma UnreachableIsNeverEntered(p: Program, st0: Fuzz, es: seq<Event>, s: nat)
    requires StatesWithin(p) && IsBest(Edges(p.arcs), p.states, s, UNREACHABLE)
    requires Run(p, Start(p, st0), es).Ok?
    ensures Run(p, Start(p, st0), es).value.state != s
  {
    hide Run;
    RunFollowsPath(p, p.arcs, st0, es);
  }

  /** The same holds of the sharper analysis that leaves out the transitions that throw. */
  lemma UnreachableWithoutThrowsIsNeverEntered(p: Program, arcs: seq<Arc>, st0: Fuzz, es: seq<Event>, s: nat)
    requires StatesWithin(p) && CoversMoves(arcs, p) && IsBest(Edges(arcs), p.states, s, UNREACHABLE)
    requires Run(p, Start(p, st0), es).Ok?
    ensures Run(p, Start(p, st0), es).value.state != s
  {
    hide Run, CoversMoves;
    RunFollowsPath(p, arcs, st0, es);
  }

  // ----- tightness --------------------------------------------------------------------------------

  /** A transition anyone could take at any time: no preconditions, and no throw. */
  predicate Free(arc: Arc) {
    arc.transition.preconditions == [] && !arc.transition.ContainsThrow()
  }

  const ALL_PERMITTED: nat -> bool := (k: nat) => true

  function TapeOf(k: nat): nat -> Draw {
    (i: nat) => Draw(k, "", 0.0, TBool)
  }

  /** An attempt that executes a transition, and does nothing else. */
  function Executing(r: Result<Outcome>): Result<Attempted> {
    var o :- r;
    Ok(Attempted(true, o))
  }

  /** A transition that can be taken: it may be run, it does not throw, and its preconditions are not fuzzed. */
  predicate Takeable(a: Attempt, k: nat, st: Fuzz)
    requires k < |a.bucket|
  {
    var t := a.bucket[k].transition;
    Eligible(a, k) && !t.ContainsThrow() && UnfuzzedPreconditions(t.preconditions, st)
  }

  lemma {:induction false} HoldingIsSatisfied(ps: seq<Precondition>, env: Env, st: Fuzz, st': Fuzz)
    requires UnfuzzedPreconditions(ps, st) && SameWeights(st, st') && AllHolding(ps, env)
    ensures CheckPreconditions(ps, env, st') == Ok(Checked(Satisfied, st'))
  {
    hide Eval;
    if ps != [] {
      UnfuzzedIsCalm(ps[0].condition, st, st');
      CalmEval(ps[0].condition, env, st');
      assert Holding(ps[0], env);
      HoldingIsSatisfied(ps[1..], env, st, st');
    }
  }

  lemma TakeableRuns(a: Attempt, k: nat, st: Fuzz)
    requires k < |a.bucket| && Takeable(a, k, st)
    ensures Visit(a, k, 0, st.Advance()) == Ok(Visited([Runnable], st.Advance())) && At(|a.bucket|, k, 0) == k
  {
    hide CheckPreconditions, UnfuzzedPreconditions, AllHolding;
    Rotated(|a.bucket|, k, 0);
    Draws(st);
    DrawsKeepWeights(st, st.Advance());
    HoldingIsSatisfied(a.bucket[k].transition.preconditions, a.env, st, st.Advance());
    assert Classify(a, k, st.Advance()) == Ok(Classified(Runnable, st.Advance()));
  }

  /** With the right offset the scan starts at a transition that can be taken, and does what running it does. */
  lemma AimedAttempt(a: Attempt, st: Fuzz, k: nat)
    requires k < |a.bucket| && st.Peek().n == k && Takeable(a, k, st)
    ensures Executed(a, st) == Some(k)
    ensures FindAndExecute(a, st) ==
      Executing(ExecuteTransition(a.bucket[k], a.enable, Outcome(a.state, a.env, st.Advance(), [])))
    ensures FindAndExecute(a, st).Ok? ==> FindAndExecute(a, st).value.outcome.state == a.bucket[k].to
  {
    hide ExecAll, Visit, SettleBy, At, Eligible, UnfuzzedPreconditions;
    TakeableRuns(a, k, st);
    RunnableAlone(a.rule);
    assert st.Range(0, |a.bucket|) == k;
  }

  /** Of the faults types cannot rule out, the transition has a source of none but those in fs. */
  predicate TameArc(p: Program, arc: Arc, fs: set<Fault>) {
    var cx := ContextFor(p, arc.transition.trigger);
    cx.Some? ==> TameTransition(arc.transition, cx.value, fs)
  }

  /** The transition has a source of this fault, which types cannot rule out. */
  ghost predicate HasSource(p: Program, arc: Arc, f: Fault) {
    Untypable(f) && forall fs | TameArc(p, arc, fs) :: f in fs
  }

  /** Not counting what is fuzzed, the transition has no source of repeated keys. */
  predicate RepeatFreeArc(p: Program, arc: Arc) {
    var cx := ContextFor(p, arc.transition.trigger);
    cx.Some? ==> RepeatFreeTransition(arc.transition, cx.value, {})
  }

  /** The attempt moves along the transition, or is stopped by a fault the transition has a source of. */
  ghost predicate AttemptTakes(p: Program, arc: Arc, r: Result<Attempted>) {
    match r
    case Ok(v) => v.outputted && v.outcome.state == arc.to
    case Fail(f) => HasSource(p, arc, f)
  }

  predicate UniqueAttempt(r: Result<Attempted>) {
    match r
    case Ok(v) => UniqueEnv(v.outcome.env)
    case Fail(f) => !f.DuplicateKey?
  }

  ghost predicate Aimed(p: Program, trigger: Trigger, cx: Context, a: Attempt, st: Fuzz, k: nat) {
    && ContextFor(p, trigger) == Some(cx) && a.bucket == Bucket(p.arcs, trigger)
    && k < |a.bucket| && st.Peek().n == k && Takeable(a, k, st)
    && Conforms(a.env) && SameTypes(cx.env, a.env)
  }

  /** An attempt aimed at an accepted transition that can be taken moves along it, or meets one of its faults. */
  lemma AimedMoves(p: Program, trigger: Trigger, cx: Context, a: Attempt, st: Fuzz, k: nat)
    requires ReadyProgram(p) && Aimed(p, trigger, cx, a, st, k)
    ensures AttemptTakes(p, a.bucket[k], FindAndExecute(a, st))
  {
    hide FindAndExecute, ExecuteTransition, AcceptedProgram, GuardedProgram, TameTransition, Conforms, SameTypes;
    hide Executed, Takeable;
    BucketReady(p, trigger);
    ContextUsable(p, trigger);
    BucketMeans(p.arcs, trigger);
    assert a.bucket[k] in a.bucket;
    var start := Outcome(a.state, a.env, st.Advance(), []);
    AimedAttempt(a, st, k);
    AlwaysTameTransition(a.bucket[k].transition, cx);
    ExecuteSound(a.bucket[k], a.enable, cx, start, UNTYPABLE);
    if FindAndExecute(a, st).Fail? {
      forall fs | TameArc(p, a.bucket[k], fs) ensures FindAndExecute(a, st).fault in fs {
        ExecuteSound(a.bucket[k], a.enable, cx, start, fs);
      }
    }
  }

  /** Without fuzzing it keeps keys unique, if the transition has no source of repeated keys. */
  lemma AimedUnique(p: Program, trigger: Trigger, cx: Context, a: Attempt, st: Fuzz, k: nat)
    requires ReadyProgram(p) && Aimed(p, trigger, cx, a, st, k)
    requires !a.enable && UniqueEnv(a.env) && RepeatFreeArc(p, a.bucket[k])
    ensures UniqueAttempt(FindAndExecute(a, st))
  {
    hide FindAndExecute, ExecuteTransition, AcceptedProgram, GuardedProgram, Conforms, SameTypes;
    hide RepeatFreeTransition, UniqueEnv, Executed, Takeable;
    BucketReady(p, trigger);
    ContextUsable(p, trigger);
    BucketMeans(p.arcs, trigger);
    assert a.bucket[k] in a.bucket;
    AimedAttempt(a, st, k);
    ExecuteUnique(a.bucket[k], false, cx, Outcome(a.state, a.env, st.Advance(), []), {});
  }

  /** The step moves along the transition, or is stopped by a fault the transition has a source of. */
  ghost predicate Takes(p: Program, arc: Arc, r: Result<Stepped>) {
    match r
    case Ok(v) => v.config.state == arc.to
    case Fail(f) => HasSource(p, arc, f)
  }

  predicate UniqueStep(r: Result<Stepped>) {
    match r
    case Ok(v) => UniqueEnv(v.config.env)
    case Fail(f) => !f.DuplicateKey?
  }

  /**
   The attempt of an event that fits is made at the transitions of one trigger, in the context they were checked in.
   */
  lemma AttemptReady(p: Program, st0: Fuzz, c: Config, e: Event, a: Attempt) returns (trigger: Trigger, cx: Context)
    requires ReadyProgram(p) && Invariant(p, st0, c) && EventFits(p, e) && AttemptOf(p, c, e) == Some(a)
    ensures ContextFor(p, trigger) == Some(cx) && a.bucket == Bucket(p.arcs, trigger)
    ensures Conforms(a.env) && SameTypes(cx.env, a.env)
    ensures UniqueEnv(c.env) && UniqueEvent(e) ==> UniqueEnv(a.env)
  {
    hide Conforms, AcceptedTransition, GuardedTransition, DBusType, SameTableTypes, FindInterface;
    hide UniqueEnv, UniqueValue, Bucket, WellFormed, TypeOf, BoundTo;
    match e.action
    case Call(i, m, params) =>
      trigger := MethodCall(m);
      BucketReady(p, trigger);
      cx := ContextFor(p, trigger).value;
      var args := FindInterface(p.interfaces, i).value.methods[m].inArgs;
      DeclaredMethodFound(p.interfaces, m);
      BindSucceeds(c.env, args, params);
      BoundTypes(p, c, cx, args, a.env);
      if UniqueEnv(c.env) && UniqueEvent(e) { BindUnique(c.env, args, params); }
    case Set(name, v) =>
      trigger := PropertySet(name);
      BucketReady(p, trigger);
      cx := ContextFor(p, trigger).value;
      var args := [Arg("value", TypeOf(v))];
      DeclaredPropertyFound(p.interfaces, name);
      BindSucceeds(c.env, args, [v]);
      assert args[1..] == [] && ArgTable([]) == map[];
      BoundTypes(p, c, cx, args, a.env);
      if UniqueEnv(c.env) && UniqueEvent(e) { BindUnique(c.env, args, [v]); }
    case Timeout =>
      trigger := Arbitrary;
      BucketReady(p, trigger);
      cx := ContextFor(p, trigger).value;
  }

  /** A step keeps keys unique where its attempt did and output something. */
  lemma StepStaysUnique(p: Program, c: Config, e: Event, a: Attempt)
    requires AttemptOf(p, c, e) == Some(a)
    requires var r := FindAndExecute(a, DrawsOf(c, e));
      r.Ok? && r.value.outputted && UniqueEnv(r.value.outcome.env)
    ensures Step(p, c, e).Ok? && UniqueEnv(Step(p, c, e).value.config.env)
  {
    hide FindAndExecute, Bucket, FindInterface, UniqueEnv;
    var r := FindAndExecute(a, DrawsOf(c, e)).value;
    match e.action
    case Call(i, m, params) =>
      UnbindUnique(r.outcome.env, FindInterface(p.interfaces, i).value.methods[m].inArgs, params);
    case Set(_, _) => ValueUnbound(r.outcome.env);
    case Timeout =>
  }

  /**
   An event whose first draw points at a transition that can be taken takes it: the machine ends in the state the
   transition leads to, or meets a fault that this very transition has a source of. This holds whatever else is
   drawn and with fuzzing on or off; with fuzzing off, a transition without sources of repeated keys makes none.
   */
  lemma EligibleIsTaken(p: Program, st0: Fuzz, c: Config, e: Event, a: Attempt, k: nat)
    requires ReadyProgram(p) && Invariant(p, st0, c) && EventFits(p, e) && AttemptOf(p, c, e) == Some(a)
    requires k < |a.bucket| && Takeable(a, k, DrawsOf(c, e)) && e.tape(0).n == k
    ensures Takes(p, a.bucket[k], Step(p, c, e))
    ensures !e.enable && UniqueEnv(c.env) && UniqueEvent(e) && RepeatFreeArc(p, a.bucket[k]) ==>
      UniqueStep(Step(p, c, e))
  {
    hide ReadyProgram, Invariant, EventFits, Step, FindAndExecute, Takeable, UniqueEnv, UniqueEvent, RepeatFreeArc;
    hide HasSource, Conforms, SameTypes, ContextFor;
    var trigger, cx := AttemptReady(p, st0, c, e, a);
    var st := DrawsOf(c, e);
    StepFollows(p, c, e, a);
    AimedMoves(p, trigger, cx, a, st, k);
    if !e.enable && UniqueEnv(c.env) && UniqueEvent(e) && RepeatFreeArc(p, a.bucket[k]) {
      assert !a.enable by { AttemptEnables(p, c, e, a); }
      AimedUnique(p, trigger, cx, a, st, k);
      if FindAndExecute(a, st).Ok? { StepStaysUnique(p, c, e, a); }
    }
  }

  lemma AttemptEnables(p: Program, c: Config, e: Event, a: Attempt)
    requires AttemptOf(p, c, e) == Some(a)
    ensures a.enable == e.enable
  {
  }

  /** The event happens without fuzzing and under the default handler, and brings in no repeated keys. */
  ghost predicate Ordinary(p: Program, e: Event) {
    EventFits(p, e) && !e.enable && e.permits == ALL_PERMITTED && UniqueEvent(e)
  }

  /** An ordinary event that a transition waits for takes it, and keeps keys unique if the transition does. */
  ghost predicate TakenBy(p: Program, c: Config, arc: Arc, e: Event) {
    && Ordinary(p, e) && Triggers(e.action, arc.transition.trigger)
    && Takes(p, arc, Step(p, c, e))
    && (UniqueEnv(c.env) && RepeatFreeArc(p, arc) ==> UniqueStep(Step(p, c, e)))
  }

  function UniqueDefault(t: Ty): (v: Value)
    requires DBusType(t)
    ensures HasType(v, t) && UniqueValue(v)
  {
    DefaultIsUnique(t);
    DefaultValue(t)
  }

  lemma {:induction false} DefaultIsUnique(t: Ty)
    requires DBusType(t)
    ensures UniqueValue(DefaultValue(t))
    decreases t
  {
    match t
    case TTuple(items) =>
      forall i | 0 <= i < |items| ensures UniqueValue(DefaultValue(items[i])) { DefaultIsUnique(items[i]); }
    case TEntry(k, w) => DefaultIsUnique(k); DefaultIsUnique(w);
    case _ =>
  }

  function DefaultParams(args: seq<Arg>): (vs: seq<Value>)
    requires forall i | 0 <= i < |args| :: DBusType(args[i].ty)
    ensures ParamsFit(args, vs) && UniqueItems(vs)
  {
    seq(|args|, i requires 0 <= i < |args| => UniqueDefault(args[i].ty))
  }

  lemma {:induction false} FindDistinct(interfaces: seq<Interface>, i: nat)
    requires DistinctInterfaces(interfaces) && i < |interfaces|
    ensures FindInterface(interfaces, interfaces[i].name) == Some(interfaces[i])
  {
    if i > 0 {
      assert interfaces[1..][i - 1] == interfaces[i];
      FindDistinct(interfaces[1..], i - 1);
    }
  }

  /** A declared method can be called by the name of the interface that declares it. */
  lemma Callee(p: Program, m: string) returns (i: Interface)
    requires AcceptedProgram(p) && DeclaredMethod(p.interfaces, m).Some?
    ensures FindInterface(p.interfaces, i.name) == Some(i)
    ensures m in i.methods && DeclaredMethod(p.interfaces, m) == Some(i.methods[m])
    ensures forall k | 0 <= k < |i.methods[m].inArgs| :: DBusType(i.methods[m].inArgs[k].ty)
  {
    hide Conforms, AcceptedTransition, DBusType;
    DeclaredMethodFound(p.interfaces, m);
    var j :| 0 <= j < |p.interfaces| && m in p.interfaces[j].methods
      && p.interfaces[j].methods[m] == DeclaredMethod(p.interfaces, m).value;
    FindDistinct(p.interfaces, j);
    i := p.interfaces[j];
  }

  /** An ordinary event at which the machine attempts the transitions of a trigger, starting with the k-th. */
  ghost predicate Reaches(p: Program, c: Config, trigger: Trigger, k: nat, e: Event) {
    && Ordinary(p, e) && Triggers(e.action, trigger) && e.tape(0).n == k
    && AttemptOf(p, c, e).Some?
    && var a := AttemptOf(p, c, e).value;
      a.bucket == Bucket(p.arcs, trigger) && a.state == c.state && a.permits == ALL_PERMITTED
  }

  /** A call that reaches the transitions of a method. */
  lemma CallReaches(p: Program, st0: Fuzz, c: Config, m: string, k: nat) returns (e: Event)
    requires ReadyProgram(p) && Invariant(p, st0, c) && k < |Bucket(p.arcs, MethodCall(m))|
    ensures Reaches(p, c, MethodCall(m), k, e)
  {
    hide Conforms, AcceptedTransition, GuardedTransition, DBusType, HasType, UniqueValue;
    hide SameTableTypes, FindInterface, DeclaredMethod, Bucket, BoundTo;
    BucketReady(p, MethodCall(m));
    var i := Callee(p, m);
    var args := i.methods[m].inArgs;
    var params := DefaultParams(args);
    e := Event(Action.Call(i.name, m, params), false, ALL_PERMITTED, TapeOf(k));
    BindSucceeds(c.env, args, params);
  }

  lemma SetReaches(p: Program, st0: Fuzz, c: Config, name: string, k: nat) returns (e: Event)
    requires ReadyProgram(p) && Invariant(p, st0, c) && k < |Bucket(p.arcs, PropertySet(name))|
    ensures Reaches(p, c, PropertySet(name), k, e)
  {
    hide Conforms, AcceptedTransition, GuardedTransition, DBusType, UniqueValue;
    hide SameTableTypes, WellFormed, TypeOf, Bucket, BoundTo;
    BucketReady(p, PropertySet(name));
    DeclaredPropertyFound(p.interfaces, name);
    var v := UniqueDefault(DeclaredProperty(p.interfaces, name).value);
    e := Event(Set(name, v), false, ALL_PERMITTED, TapeOf(k));
    BindSucceeds(c.env, [Arg("value", TypeOf(v))], [v]);
  }

  lemma TimeoutReaches(p: Program, c: Config, k: nat) returns (e: Event)
    requires k < |Bucket(p.arcs, Arbitrary)|
    ensures Reaches(p, c, Arbitrary, k, e)
  {
    hide Bucket;
    e := Event(Timeout, false, ALL_PERMITTED, TapeOf(k));
  }

  /**
   Some ordinary event takes a given free transition, unless it is stopped by a fault that this very transition
   has a source of; and a repeated key is no such fault where the transition has no source of repeated keys.
   */
  lemma FreeIsTaken(p: Program, st0: Fuzz, c: Config, arc: Arc) returns (e: Event)
    requires ReadyProgram(p) && Invariant(p, st0, c)
    requires arc in p.arcs && arc.from == c.state && Free(arc)
    ensures TakenBy(p, c, arc, e)
  {
    hide Invariant, ReadyProgram, EventFits, Step, Bucket, UniqueEnv, UniqueEvent, RepeatFreeArc, HasSource, AttemptOf;
    BucketMeans(p.arcs, arc.transition.trigger);
    var bucket := Bucket(p.arcs, arc.transition.trigger);
    assert arc in bucket;
    var k :| 0 <= k < |bucket| && bucket[k] == arc;
    match arc.transition.trigger {
      case MethodCall(m) => e := CallReaches(p, st0, c, m, k);
      case PropertySet(name) => e := SetReaches(p, st0, c, name, k);
      case Arbitrary => e := TimeoutReaches(p, c, k);
    }
    EligibleIsTaken(p, st0, c, e, AttemptOf(p, c, e).value, k);
  }

  /** Transitions of the machine, of which those without preconditions do not throw. */
  predicate FreeMoves(arcs: seq<Arc>, p: Program) {
    forall k | 0 <= k < |arcs| ::
      arcs[k] in p.arcs && (arcs[k].transition.preconditions == [] ==> !arcs[k].transition.ContainsThrow())
  }

  ghost predicate OrdinaryEvents(p: Program, es: seq<Event>) {
    forall i | 0 <= i < |es| :: Ordinary(p, es[i])
  }

  lemma {:induction false} PathLevelBound(es: seq<Edge>, p: seq<nat>)
    requires p != []
    ensures PathLevel(es, p) <= REACHABLE
  {
    if |p| > 1 { PathLevelBound(es, p[..|p| - 1]); }
  }

  /** The run goes through the states of the path, one after each event. */
  predicate Along(p: Program, c: Config, es: seq<Event>, path: seq<nat>)
    decreases |es|
  {
    && |path| == |es| + 1
    && (es != [] ==> Along(p, c, es[..|es| - 1], path[..|es|]))
    && Run(p, c, es).Ok? && Run(p, c, es).value.state == path[|es|]
  }

  /**
   The run goes through the states of the path up to some event, which a transition to the next state waits
   for. That event is stopped by a fault that this transition has a source of.
   */
  ghost predicate StoppedAlong(p: Program, arcs: seq<Arc>, c: Config, es: seq<Event>, path: seq<nat>) {
    && 0 < |es| < |path| && Along(p, c, es[..|es| - 1], path[..|es|])
    && var r := Step(p, Run(p, c, es[..|es| - 1]).value, es[|es| - 1]);
      && r.Fail?
      && exists k | 0 <= k < |arcs| ::
           LeadsOn(arcs[k], path[|es| - 1], path[|es|], es[|es| - 1]) && HasSource(p, arcs[k], r.fault)
  }

  predicate LeadsOn(arc: Arc, f: nat, t: nat, e: Event) {
    arc.from == f && arc.to == t && Free(arc) && Triggers(e.action, arc.transition.trigger)
  }

  /** The events lead along the path to its end, or are stopped on the way by a fault of a transition on it. */
  ghost predicate LeadAlong(p: Program, arcs: seq<Arc>, c: Config, es: seq<Event>, path: seq<nat>) {
    OrdinaryEvents(p, es) && (Along(p, c, es, path) || StoppedAlong(p, arcs, c, es, path))
  }

  predicate RepeatFreeMoves(p: Program, arcs: seq<Arc>) {
    UniqueEnv(p.initial) && forall k | 0 <= k < |arcs| && Free(arcs[k]) :: RepeatFreeArc(p, arcs[k])
  }

  predicate UniqueRunEnd(r: Result<Config>) {
    match r
    case Ok(c) => UniqueEnv(c.env)
    case Fail(f) => !f.DuplicateKey?
  }

  lemma FreeArc(p: Program, arcs: seq<Arc>, f: nat, t: nat) returns (k: nat)
    requires FreeMoves(arcs, p) && EdgeLevel(Edges(arcs), f, t) == REACHABLE
    ensures k < |arcs| && arcs[k] in p.arcs && arcs[k].from == f && arcs[k].to == t && Free(arcs[k])
  {
    var g := Edges(arcs);
    EdgeLevelMeans(g, f, t);
    var edge :| edge in g && edge.from == f && edge.to == t && edge.unconditional;
    k :| 0 <= k < |g| && g[k] == edge;
  }

  lemma FreePathInit(p: Program, arcs: seq<Arc>, path: seq<nat>, s: nat)
    requires FreePath(p, arcs, path, s) && |path| > 1
    ensures FreePath(p, arcs, path[..|path| - 1], path[|path| - 2])
    ensures EdgeLevel(Edges(arcs), path[|path| - 2], s) == REACHABLE
  {
    hide EdgeLevel;
    var init := path[..|path| - 1];
    assert forall x | x in init :: x in path;
    PathLevelBound(Edges(arcs), init);
    EdgeLevelMeans(Edges(arcs), path[|path| - 2], s);
  }

  /** A path without preconditions is a run along it, or a run stopped on it. */
  lemma {:induction false} PathIsRun(p: Program, arcs: seq<Arc>, st0: Fuzz, path: seq<nat>, s: nat)
    returns (es: seq<Event>)
    requires ReadyProgram(p) && FreeMoves(arcs, p) && FreePath(p, arcs, path, s)
    ensures LeadAlong(p, arcs, Start(p, st0), es, path)
    ensures RepeatFreeMoves(p, arcs) ==> UniqueRunEnd(Run(p, Start(p, st0), es))
    decreases |path|
  {
    hide ReadyProgram, Step, Ordinary, EdgeLevel, HasSource, RepeatFreeArc, UniqueEnv, PathLevel;
    if |path| == 1 {
      es := [];
    } else {
      var init, u := path[..|path| - 1], path[|path| - 2];
      FreePathInit(p, arcs, path, s);
      es := PathIsRun(p, arcs, st0, init, u);
      assert init + [s] == path;
      if Along(p, Start(p, st0), es, init) {
        es := LeadOn(p, arcs, st0, es, init, s);
      } else {
        assert init[..|es|] == path[..|es|];
      }
    }
  }

  lemma LeadOn(p: Program, arcs: seq<Arc>, st0: Fuzz, es: seq<Event>, path: seq<nat>, s: nat)
    returns (all: seq<Event>)
    requires ReadyProgram(p) && FreeMoves(arcs, p) && path != []
    requires EdgeLevel(Edges(arcs), path[|path| - 1], s) == REACHABLE
    requires OrdinaryEvents(p, es) && Along(p, Start(p, st0), es, path)
    requires RepeatFreeMoves(p, arcs) ==> UniqueRunEnd(Run(p, Start(p, st0), es))
    ensures LeadAlong(p, arcs, Start(p, st0), all, path + [s])
    ensures RepeatFreeMoves(p, arcs) ==> UniqueRunEnd(Run(p, Start(p, st0), all))
  {
    hide ReadyProgram, Step, Ordinary, EdgeLevel, TakenBy, RepeatFreeMoves, UniqueEnv, FreeMoves, Invariant, LeadAlong;
    hide OrdinaryEvents;
    var k := FreeArc(p, arcs, path[|path| - 1], s);
    AlwaysTameProgram(p);
    OrdinaryFits(p, es);
    RunKeepsInvariant(p, st0, es, UNTYPABLE);
    var c := Run(p, Start(p, st0), es).value;
    var e := FreeIsTaken(p, st0, c, arcs[k]);
    OneMore(p, arcs, Start(p, st0), es, path, k, e, s);
    all := es + [e];
  }

  lemma OrdinaryFits(p: Program, es: seq<Event>)
    requires OrdinaryEvents(p, es)
    ensures forall i | 0 <= i < |es| :: EventFits(p, es[i])
  {
    hide EventFits, UniqueEvent;
    forall i | 0 <= i < |es| ensures EventFits(p, es[i]) { assert Ordinary(p, es[i]); }
  }

  lemma OneMore(p: Program, arcs: seq<Arc>, c: Config, es: seq<Event>, path: seq<nat>, k: nat, e: Event, s: nat)
    requires OrdinaryEvents(p, es) && Along(p, c, es, path) && k < |arcs|
    requires arcs[k].from == path[|es|] && arcs[k].to == s && Free(arcs[k])
    requires TakenBy(p, Run(p, c, es).value, arcs[k], e)
    ensures LeadAlong(p, arcs, c, es + [e], path + [s])
    ensures RepeatFreeMoves(p, arcs) && UniqueEnv(Run(p, c, es).value.env) ==> UniqueRunEnd(Run(p, c, es + [e]))
  {
    hide Step, Ordinary, HasSource, RepeatFreeArc, UniqueEnv, Free;
    var all, on := es + [e], path + [s];
    assert all[..|all| - 1] == es && on[..|all|] == path;
    assert LeadsOn(arcs[k], on[|all| - 1], on[|all|], e);
  }

  /** A path to the state along transitions without preconditions. */
  predicate FreePath(p: Program, arcs: seq<Arc>, path: seq<nat>, s: nat) {
    IsPath(path, p.states, s) && PathLevel(Edges(arcs), path) == REACHABLE
  }

  /** There is such a path, and events that lead along it. */
  ghost predicate LeadTo(p: Program, arcs: seq<Arc>, st0: Fuzz, s: nat) {
    exists path, es :: FreePath(p, arcs, path, s) && LeadAlong(p, arcs, Start(p, st0), es, path)
  }

  /** Some ordinary run ends in the state. */
  ghost predicate Entered(p: Program, st0: Fuzz, s: nat) {
    exists es :: OrdinaryEvents(p, es) && Run(p, Start(p, st0), es).Ok? && Run(p, Start(p, st0), es).value.state == s
  }

  /** The transitions without preconditions among these have a source of no faults but those in fs. */
  predicate TameMoves(p: Program, arcs: seq<Arc>, fs: set<Fault>) {
    forall k | 0 <= k < |arcs| && Free(arcs[k]) :: TameArc(p, arcs[k], fs)
  }

  /** None of them has a source of faults, except for dictSet() on keys that do not repeat. */
  predicate SafeMoves(p: Program, arcs: seq<Arc>) {
    TameMoves(p, arcs, {}) || (TameMoves(p, arcs, {DuplicateKey}) && RepeatFreeMoves(p, arcs))
  }

  lemma SourceIsKnown(p: Program, arc: Arc, f: Fault, fs: set<Fault>)
    requires TameArc(p, arc, fs) && HasSource(p, arc, f)
    ensures f in fs
  {
  }

  lemma StoppedBySource(p: Program, arcs: seq<Arc>, c: Config, es: seq<Event>, path: seq<nat>) returns (k: nat)
    requires StoppedAlong(p, arcs, c, es, path)
    ensures Run(p, c, es).Fail?
    ensures k < |arcs| && Free(arcs[k]) && HasSource(p, arcs[k], Run(p, c, es).fault)
  {
    hide Step, HasSource, Free;
    var r := Step(p, Run(p, c, es[..|es| - 1]).value, es[|es| - 1]);
    k :| 0 <= k < |arcs|
      && LeadsOn(arcs[k], path[|es| - 1], path[|es|], es[|es| - 1]) && HasSource(p, arcs[k], r.fault);
  }

  /** What stops a safe run is not among its faults, or it is a repeated key. */
  lemma SafeIsNotStopped(p: Program, arcs: seq<Arc>, c: Config, es: seq<Event>, path: seq<nat>)
    requires SafeMoves(p, arcs) && (RepeatFreeMoves(p, arcs) ==> UniqueRunEnd(Run(p, c, es)))
    ensures !StoppedAlong(p, arcs, c, es, path)
  {
    hide TameArc, RepeatFreeMoves, HasSource, Free, StoppedAlong, Run;
    if StoppedAlong(p, arcs, c, es, path) {
      var k := StoppedBySource(p, arcs, c, es, path);
      SourceIsKnown(p, arcs[k], Run(p, c, es).fault, if TameMoves(p, arcs, {}) then {} else {DuplicateKey});
    }
  }

  /**
   To a state reachable without preconditions an actual run leads along a path, unless a transition on this
   path stops it with a fault of its own. If none of these transitions has faults of its own, some run ends in
   the state.
   */
  lemma ReachableByMovesIsEntered(p: Program, arcs: seq<Arc>, st0: Fuzz, s: nat)
    requires ReadyProgram(p) && FreeMoves(arcs, p) && IsBest(Edges(arcs), p.states, s, REACHABLE)
    ensures LeadTo(p, arcs, st0, s)
    ensures SafeMoves(p, arcs) ==> Entered(p, st0, s)
  {
    hide ReadyProgram, SafeMoves, RepeatFreeMoves, OrdinaryEvents, FreeMoves, StoppedAlong, UniqueRunEnd;
    assert exists path :: FreePath(p, arcs, path, s) by {
      var path :| IsPath(path, p.states, s) && PathLevel(Edges(arcs), path) == REACHABLE;
      assert FreePath(p, arcs, path, s);
    }
    var path :| FreePath(p, arcs, path, s);
    var es := PathIsRun(p, arcs, st0, path, s);
    if SafeMoves(p, arcs) { SafeIsNotStopped(p, arcs, Start(p, st0), es, path); }
  }

  /** No transition throws that has no preconditions. */
  predicate NoFreeThrows(p: Program) {
    forall k | 0 <= k < |p.arcs| ::
      p.arcs[k].transition.preconditions == [] ==> !p.arcs[k].transition.ContainsThrow()
  }

  /** Lint is tight: where that is so, this holds of every state the whole machine's analysis calls reachable. */
  lemma ReachableIsEntered(p: Program, st0: Fuzz, s: nat)
    requires ReadyProgram(p) && NoFreeThrows(p) && IsBest(Edges(p.arcs), p.states, s, REACHABLE)
    ensures LeadTo(p, p.arcs, st0, s)
    ensures SafeMoves(p, p.arcs) ==> Entered(p, st0, s)
  {
    hide ReadyProgram, SafeMoves, IsBest, LeadTo, Entered;
    ReachableByMovesIsEntered(p, p.arcs, st0, s);
  }

  // ----- why throwing transitions are left out ----------------------------------------------------

  /** A transition to state 1 that throws, for any method. */
  function ThrowingArc(m: string): Arc {
    Arc(0, 1, Transition(MethodCall(m), [], [Throw("Error")]))
  }

  /** A state reached only by a transition that throws is called reachable, and no run ever enters it. */
  lemma ThrowingTransitionMisleads(m: string, p: Program, st0: Fuzz, es: seq<Event>)
    requires p.states == 2 && p.arcs == [ThrowingArc(m)] && Run(p, Start(p, st0), es).Ok?
    ensures IsBest(Edges(p.arcs), p.states, 1, REACHABLE)
    ensures Run(p, Start(p, st0), es).value.state != 1
  {
    hide Run;
    assert p.arcs[0].transition.statements[0].Throw?;
    LoneEdgeLeads(Edges(p.arcs));
    NothingLeads(p.states, 1);
    UnreachableWithoutThrowsIsNeverEntered(p, [], st0, es, 1);
  }

  lemma LoneEdgeLeads(g: seq<Edge>)
    requires g == [Edge(0, 1, true)]
    ensures IsBest(g, 2, 1, REACHABLE)
  {
    assert g[0] in g;
    EdgeLevelMeans(g, 0, 1);
    assert [0, 1][..1] == [0] && IsPath([0, 1], 2, 1) && PathLevel(g, [0, 1]) == REACHABLE;
    forall path | IsPath(path, 2, 1) ensures PathLevel(g, path) <= REACHABLE { PathLevelBound(g, path); }
  }

  lemma NothingLeads(n: nat, s: nat)
    requires 0 < s < n
    ensures IsBest(Edges([]), n, s, UNREACHABLE)
  {
    assert [0, s][..1] == [0] && IsPath([0, s], n, s) && PathLevel(Edges([]), [0, s]) == UNREACHABLE;
    forall path | IsPath(path, n, s) ensures PathLevel(Edges([]), path) == UNREACHABLE {
      assert EdgeLevel(Edges([]), path[|path| - 2], path[|path| - 1]) == UNREACHABLE;
    }
  }
}
