/**
 What a step does, said of the whole machine: which state it ends in, which variables it leaves, what it outputs,
 and where every output comes from.
 */
module Steps {
  import opened Results
  import opened VariantTypes
  import opened Language
  import opened Evaluator
  import opened EffectFree
  import opened Statements
  import opened Transitions
  import opened Scanning
  import opened Attempts
  import opened Outputs
  import opened Machines

  // ----- steps that run a transition --------------------------------------------------------------

  /**
   The step ran the transition: it is where the transition leads, or where it was if the transition throws; the
   variables and the outputs are those that the statements leave, run once with the parameters bound.
   */
  ghost predicate RanStep(a: Attempt, k: nat, c: Config, st: Fuzz, s: Stepped)
    requires k < |a.bucket|
  {
    && s.config.state == (if a.bucket[k].transition.ContainsThrow() then c.state else a.bucket[k].to)
    && exists st', effect :: SameWeights(st, st') && LeftBy(a, k, st', effect, s)
  }

  ghost predicate LeftBy(a: Attempt, k: nat, st': Fuzz, effect: Effect, s: Stepped)
    requires k < |a.bucket|
  {
    && st'.enabled == a.enable && ExecAll(a.bucket[k].transition.statements, a.env, st') == Ok(effect)
    && s.out == effect.out && s.config.env.objects == effect.env.objects
  }

  lemma {:induction false} UnbindKeepsObjects(env: Env, args: seq<Arg>, vs: seq<Value>)
    ensures UnbindArgs(env, args, vs).objects == env.objects
    decreases args
  {
    if args != [] && vs != [] { UnbindKeepsObjects(RemoveVariable(env, Local, args[0].name), args[1..], vs[1..]); }
  }

  lemma {:induction false} BindKeepsObjects(env: Env, args: seq<Arg>, vs: seq<Value>)
    requires BindArgs(env, args, vs).Ok?
    ensures BindArgs(env, args, vs).value.objects == env.objects
    decreases args
  {
    if args != [] && vs != [] {
      var declared := DeclareVariable(env, Local, args[0].name, args[0].ty).value;
      BindKeepsObjects(SetVariable(declared, Local, args[0].name, vs[0]).value, args[1..], vs[1..]);
    }
  }

  /** What a step has in common with its attempt. */
  lemma AttemptInStep(p: Program, c: Config, e: Event, a: Attempt)
    requires AttemptOf(p, c, e) == Some(a) && Step(p, c, e).Ok?
    ensures a.bucket != [] && a.state == c.state && a.env.objects == c.env.objects && a.enable == e.enable
    ensures FindAndExecute(a, DrawsOf(c, e)).Ok?
    ensures var r, s := FindAndExecute(a, DrawsOf(c, e)).value, Step(p, c, e).value;
      && s.config.state == r.outcome.state
      && (r.outputted ==> s.config.env.objects == r.outcome.env.objects && s.out == r.outcome.out)
      && (r.outputted ==> s.changed == e.action.Set?)
      && (!r.outputted && e.action.Call? ==> s.out == r.outcome.out + [ReplyOut(VTuple([]))])
      && (!r.outputted && !e.action.Call? ==> s.out == r.outcome.out)
      && (!r.outputted && !e.action.Set? ==> s.config.env.objects == r.outcome.env.objects && !s.changed)
      && (!r.outputted && e.action.Set? ==>
            SetTo(r.outcome.env, s.config.env, e.action.propertyName, e.action.value, s.changed))
  {
    hide FindAndExecute, Bucket, FindInterface;
    match e.action
    case Call(i, m, params) =>
      var args := FindInterface(p.interfaces, i).value.methods[m].inArgs;
      BindKeepsObjects(c.env, args, params);
      UnbindKeepsObjects(FindAndExecute(a, DrawsOf(c, e)).value.outcome.env, args, params);
    case Set(name, v) =>
      BindKeepsObjects(c.env, [Arg("value", TypeOf(v))], [v]);
    case Timeout =>
  }

  /** A step fails where its attempt does, and follows it where that outputs something. */
  lemma StepFollows(p: Program, c: Config, e: Event, a: Attempt)
    requires AttemptOf(p, c, e) == Some(a)
    ensures var r, s := FindAndExecute(a, DrawsOf(c, e)), Step(p, c, e);
      && (r.Fail? ==> s == Fail(r.fault))
      && (r.Ok? && r.value.outputted ==> s.Ok? && s.value.config.state == r.value.outcome.state)
  {
    hide FindAndExecute, Bucket, FindInterface;
  }

  /** The object variable reads as the value, no other changed, and changed tells whether it read otherwise before. */
  predicate SetTo(env: Env, env': Env, name: string, v: Value, changed: bool) {
    && name in env.objects && env'.objects.Keys == env.objects.Keys
    && env'.objects[name] == Variable(env.objects[name].ty, Some(v))
    && (forall x | x in env.objects && x != name :: env'.objects[x] == env.objects[x])
    && (changed <==> env.objects[name].value != Some(v))
  }

  /**
   A step whose attempt executes a transition runs that transition, and reports a property as changed if it was set.
   */
  lemma HandledStep(p: Program, c: Config, e: Event, a: Attempt)
    requires AttemptOf(p, c, e) == Some(a) && Step(p, c, e).Ok?
    requires a.bucket != [] && Executed(a, DrawsOf(c, e)).Some?
    ensures var k, s := Executed(a, DrawsOf(c, e)).value, Step(p, c, e).value;
      && k < |a.bucket| && a.bucket[k].from == c.state && a.permits(k)
      && RanStep(a, k, c, DrawsOf(c, e), s) && s.changed == e.action.Set?
  {
    hide FindAndExecute, Executed, Step, AttemptOf, ExecAll, SameWeights;
    var st := DrawsOf(c, e);
    AttemptInStep(p, c, e, a);
    AttemptEffect(a, st);
    ExecutedFromHere(a, st);
    var k, o := Executed(a, st).value, FindAndExecute(a, st).value.outcome;
    var st' :| SameWeights(st, st') && Ran(a, k, st', o);
    assert LeftBy(a, k, st', Effect(o.env, o.st, o.out), Step(p, c, e).value);
  }

  /**
   Its outputs correspond to the statements of the transition that are not assignments; where nothing in them is
   fuzzed, each carries the value of its expression in the variables that the statements before it leave.
   */
  lemma HandledOutputs(p: Program, c: Config, e: Event, a: Attempt, j: nat)
    requires AttemptOf(p, c, e) == Some(a) && Step(p, c, e).Ok?
    requires a.bucket != [] && Executed(a, DrawsOf(c, e)).Some? && Executed(a, DrawsOf(c, e)).value < |a.bucket|
    ensures var ss, out := a.bucket[Executed(a, DrawsOf(c, e)).value].transition.statements, Step(p, c, e).value.out;
      && Corresponds(out, ss)
      && (j < |ss| && !ss[j].Assign? && CalmStatements(ss, c.fuzz.(enabled := e.enable)) ==> SaysAt(out, ss, a.env, j))
  {
    hide FindAndExecute, Executed, Step, AttemptOf, ExecAll, SameWeights, Corresponds, SaysAt, CalmStatements;
    HandledStep(p, c, e, a);
    AttemptInStep(p, c, e, a);
    var k, s := Executed(a, DrawsOf(c, e)).value, Step(p, c, e).value;
    var ss := a.bucket[k].transition.statements;
    var st', effect :| SameWeights(DrawsOf(c, e), st') && LeftBy(a, k, st', effect, s);
    OutputsCorrespond(ss, a.env, st');
    if j < |ss| && !ss[j].Assign? && CalmStatements(ss, c.fuzz.(enabled := e.enable)) {
      CalmInStep(ss, c.fuzz, DrawsOf(c, e), st', e.enable);
      OutputValues(ss, a.env, st', j);
    }
  }

  lemma CalmInStep(ss: seq<Statement>, st: Fuzz, draws: Fuzz, st': Fuzz, enable: bool)
    requires CalmStatements(ss, st.(enabled := enable)) && SameWeights(draws, st') && st'.enabled == enable
    requires draws.weights == st.weights
    ensures CalmStatements(ss, st')
  {
    hide CalmStatement;
    var on := st.(enabled := enable);
    forall id: nat ensures st'.Weight(id) == on.Weight(id) { assert st'.Weight(id) == draws.Weight(id); }
    forall i | 0 <= i < |ss| ensures CalmStatement(ss[i], st') { CalmStatementAkin(ss[i], on, st'); }
  }

  lemma CalmStatementAkin(s: Statement, st: Fuzz, st': Fuzz)
    requires CalmStatement(s, st) && SameWeights(st, st') && st'.enabled == st.enabled
    ensures CalmStatement(s, st')
  {
    hide Calm, SameWeights;
    match s
    case Assign(_, rvalue) => CalmAkin(rvalue, st, st');
    case Throw(_) =>
    case Emit(_, params) => CalmAkin(params, st, st');
    case Reply(reply) => CalmAkin(reply, st, st');
  }

  lemma CalmAkin(e: Expr, st: Fuzz, st': Fuzz)
    requires Calm(e, st) && SameWeights(st, st') && st'.enabled == st.enabled
    ensures Calm(e, st')
  {
    hide Calm, SameWeights;
    if st.enabled {
      assert st.(enabled := true) == st;
      UnfuzzedIsCalm(e, st, st');
    } else {
      DisabledIsCalm(e, st');
    }
  }

  /**
   A step whose attempt executes nothing stays in its state and outputs nothing, except that a call is answered:
   with the error of a refusal, unless that is withdrawn, or else with the empty tuple. A property that is set all
   the same reads as the value afterwards, and no other variable changes.
   */
  lemma IdleStep(p: Program, c: Config, e: Event, a: Attempt)
    requires AttemptOf(p, c, e) == Some(a) && Step(p, c, e).Ok?
    requires a.bucket != [] && Executed(a, DrawsOf(c, e)).None?
    ensures var r, s := FindAndExecute(a, DrawsOf(c, e)), Step(p, c, e).value;
      && r.Ok? && s.config.state == c.state
      && (!e.action.Set? ==> s.config.env.objects == c.env.objects && !s.changed)
      && (e.action.Set? && !r.value.outputted ==>
            SetTo(c.env, s.config.env, e.action.propertyName, e.action.value, s.changed))
      && (if r.value.outputted && !Withdrawn(a, DrawsOf(c, e)) then |s.out| == 1 && s.out[0].ThrowOut?
          else if e.action.Call? && !r.value.outputted then s.out == [ReplyOut(VTuple([]))]
          else s.out == [])
  {
    hide FindAndExecute, Executed, Step, AttemptOf, SameWeights, Reported, Withdrawn, SetTo;
    var st := DrawsOf(c, e);
    AttemptInStep(p, c, e, a);
    AttemptEffect(a, st);
    NothingExecuted(a, st);
    if Withdrawn(a, st) { WithdrawnIsQuiet(a, st); }
    assert [] + [ReplyOut(VTuple([]))] == [ReplyOut(VTuple([]))];
    if e.action.Set? && !FindAndExecute(a, st).value.outputted {
      SameObjects(FindAndExecute(a, st).value.outcome.env, c.env, Step(p, c, e).value.config.env, e.action.propertyName,
                  e.action.value, Step(p, c, e).value.changed);
    }
  }

  lemma SameObjects(env: Env, env0: Env, env': Env, name: string, v: Value, changed: bool)
    requires env.objects == env0.objects && SetTo(env, env', name, v, changed)
    ensures SetTo(env0, env', name, v, changed)
  {
  }

  // ----- steps without transitions ----------------------------------------------------------------

  /** No transition of the machine waits for the event, or the object called has no such interface or method. */
  predicate Unhandled(p: Program, e: Event) {
    || (forall k | 0 <= k < |p.arcs| :: !Triggers(e.action, p.arcs[k].transition.trigger))
    || (e.action.Call? && FindInterface(p.interfaces, e.action.interfaceName).None?)
    || (e.action.Call? && e.action.methodName !in FindInterface(p.interfaces, e.action.interfaceName).value.methods)
  }

  lemma NothingWaits(p: Program, trigger: Trigger, action: Action)
    requires forall k | 0 <= k < |p.arcs| :: !Triggers(action, p.arcs[k].transition.trigger)
    requires Triggers(action, trigger)
    ensures Bucket(p.arcs, trigger) == []
  {
    BucketMeans(p.arcs, trigger);
    SomeMember(Bucket(p.arcs, trigger));
  }

  lemma SomeMember(b: seq<Arc>)
    ensures b != [] ==> exists arc :: arc in b
  {
    if b != [] { assert b[0] in b; }
  }

  /** A call that nothing handles always succeeds, is answered once with the empty tuple, and changes nothing. */
  lemma UnhandledCall(p: Program, c: Config, e: Event)
    requires e.action.Call? && Unhandled(p, e)
    ensures Step(p, c, e).Ok?
    ensures var s := Step(p, c, e).value;
      && s.out == [ReplyOut(VTuple([]))] && s.config.state == c.state && s.config.env == c.env && !s.changed
  {
    hide Bucket, FindAndExecute, FindInterface;
    var bucket := Bucket(p.arcs, MethodCall(e.action.methodName));
    if forall k | 0 <= k < |p.arcs| :: !Triggers(e.action, p.arcs[k].transition.trigger) {
      NothingWaits(p, MethodCall(e.action.methodName), e.action);
    }
  }

  /** Setting a property that no transition handles sets its variable and nothing else, without output. */
  lemma UnhandledSet(p: Program, c: Config, e: Event)
    requires e.action.Set? && Unhandled(p, e) && Step(p, c, e).Ok?
    ensures var s := Step(p, c, e).value;
      && s.out == [] && s.config.state == c.state && s.config.env.locals == c.env.locals
      && SetTo(c.env, s.config.env, e.action.propertyName, e.action.value, s.changed)
  {
    hide Bucket, FindAndExecute;
    NothingWaits(p, PropertySet(e.action.propertyName), e.action);
  }

  /** A timeout that no transition handles does nothing; a reset goes back to the start and outputs nothing. */
  lemma UnhandledOther(p: Program, c: Config, e: Event)
    requires (e.action.Timeout? && Unhandled(p, e)) || e.action.Restart?
    ensures Step(p, c, e).Ok?
    ensures var s := Step(p, c, e).value;
      && s.out == [] && !s.changed
      && s.config.state == (if e.action.Restart? then 0 else c.state)
      && s.config.env == (if e.action.Restart? then p.initial else c.env)
  {
    hide Bucket;
    if e.action.Timeout? {
      NothingWaits(p, Arbitrary, e.action);
      EmptyAttempt(Attempt([], c.state, c.env, e.enable, e.permits, p.rule), DrawsOf(c, e));
    }
  }

  // ----- where outputs come from ------------------------------------------------------------------

  /** A transition of the machine that waits for the event and leads out of the current state. */
  predicate WaitsHere(p: Program, c: Config, e: Event, arc: Arc) {
    arc in p.arcs && Triggers(e.action, arc.transition.trigger) && arc.from == c.state
  }

  /** The transition has a statement that gives this output, or for an error a precondition that names it. */
  predicate Gives(arc: Arc, o: Output) {
    || (exists s :: s in arc.transition.statements && Says(o, s))
    || (exists q :: q in arc.transition.preconditions && q.error.Some? && o == ThrowOut(q.error.value))
  }

  /** The attempt of an event is at the transitions that wait for it. */
  lemma AttemptBucket(p: Program, c: Config, e: Event, a: Attempt, k: nat)
    requires AttemptOf(p, c, e) == Some(a) && k < |a.bucket|
    ensures a.bucket[k] in p.arcs && Triggers(e.action, a.bucket[k].transition.trigger)
  {
    match e.action
    case Call(_, m, _) => BucketMeans(p.arcs, MethodCall(m)); assert a.bucket[k] in a.bucket;
    case Set(name, _) => BucketMeans(p.arcs, PropertySet(name)); assert a.bucket[k] in a.bucket;
    case Timeout => BucketMeans(p.arcs, Arbitrary); assert a.bucket[k] in a.bucket;
  }

  /**
   Every output of a step comes from a transition of the machine that waits for the event and leads out of the
   current state: from one of its statements, or for an error from one of its preconditions. The only other output
   is the empty tuple with which a call is answered.
   */
  lemma OutputsHaveSource(p: Program, c: Config, e: Event, i: nat)
    requires Step(p, c, e).Ok? && i < |Step(p, c, e).value.out|
    ensures var o := Step(p, c, e).value.out[i];
      || (exists arc :: WaitsHere(p, c, e, arc) && Gives(arc, o))
      || (e.action.Call? && o == ReplyOut(VTuple([])) && Step(p, c, e).value.out == [o])
  {
    hide FindAndExecute, Executed, Step, AttemptOf, Withdrawn, SetTo, WaitsHere, Gives, RanStep;
    var o := Step(p, c, e).value.out[i];
    if AttemptOf(p, c, e).None? {
      NoAttempt(p, c, e);
    } else {
      var a, st := AttemptOf(p, c, e).value, DrawsOf(c, e);
      AttemptInStep(p, c, e, a);
      if Executed(a, st).Some? {
        HandledStep(p, c, e, a);
        ExecutedGives(p, c, e, a, Executed(a, st).value, Step(p, c, e).value, i);
      } else {
        IdleStep(p, c, e, a);
        if o != ReplyOut(VTuple([])) { RefusalGives(p, c, e, a, o); }
      }
    }
  }

  lemma NoAttempt(p: Program, c: Config, e: Event)
    requires AttemptOf(p, c, e).None? && Step(p, c, e).Ok?
    ensures Step(p, c, e).value.out == if e.action.Call? then [ReplyOut(VTuple([]))] else []
  {
    hide FindAndExecute, Bucket, FindInterface;
    if e.action.Timeout? {
      EmptyAttempt(Attempt([], c.state, c.env, e.enable, e.permits, p.rule), DrawsOf(c, e));
    }
  }

  lemma ExecutedGives(p: Program, c: Config, e: Event, a: Attempt, k: nat, s: Stepped, i: nat)
    requires AttemptOf(p, c, e) == Some(a) && k < |a.bucket| && a.bucket[k].from == c.state
    requires RanStep(a, k, c, DrawsOf(c, e), s) && i < |s.out|
    ensures WaitsHere(p, c, e, a.bucket[k]) && Gives(a.bucket[k], s.out[i])
  {
    hide AttemptOf, ExecAll, Says, SameWeights;
    AttemptBucket(p, c, e, a, k);
    var ss := a.bucket[k].transition.statements;
    var st', effect :| SameWeights(DrawsOf(c, e), st') && LeftBy(a, k, st', effect, s);
    OutputsCorrespond(ss, a.env, st');
    SpeakingFrom(ss, i);
    assert Says(s.out[i], Speaking(ss)[i]);
  }

  lemma {:induction false} SpeakingFrom(ss: seq<Statement>, i: nat)
    requires i < |Speaking(ss)|
    ensures Speaking(ss)[i] in ss
    decreases |ss|
  {
    var init := ss[..|ss| - 1];
    if i < |Speaking(init)| { SpeakingFrom(init, i); }
  }

  lemma RefusalGives(p: Program, c: Config, e: Event, a: Attempt, o: Output)
    requires AttemptOf(p, c, e) == Some(a) && Step(p, c, e).Ok? && a.bucket != [] && Executed(a, DrawsOf(c, e)).None?
    requires Step(p, c, e).value.out == [o] && o != ReplyOut(VTuple([]))
    ensures exists arc :: WaitsHere(p, c, e, arc) && Gives(arc, o)
  {
    hide FindAndExecute, Executed, Step, AttemptOf, Withdrawn, SetTo, Classify, CheckPreconditions, SameWeights;
    var st := DrawsOf(c, e);
    AttemptInStep(p, c, e, a);
    AttemptEffect(a, st);
    IdleStep(p, c, e, a);
    var k :| 0 <= k < |a.bucket| && Reported(a, k, st, [o]);
    AttemptBucket(p, c, e, a, k);
    var arc := a.bucket[k];
    MayBeFromHere(a, k, st);
    var st' :| Rechecked(arc, a.env, st, st', [o]);
    var ps := arc.transition.preconditions;
    CheckingOnlyDraws(ps, a.env, st');
    var v := CheckPreconditions(ps, a.env, st').value.verdict;
    assert v.Unsatisfied? && v.error.Some? && o == ThrowOut(v.error.value);
    var i :| 0 <= i < |ps| && ps[i].error == v.error;
    assert ps[i] in ps;
    assert WaitsHere(p, c, e, arc) && Gives(arc, o);
  }

  lemma MayBeFromHere(a: Attempt, k: nat, st: Fuzz)
    requires k < |a.bucket| && MayBe(a, k, st, Refused(true))
    ensures a.bucket[k].from == a.state && a.permits(k)
  {
    hide CheckPreconditions;
  }
}
