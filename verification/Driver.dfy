/**
 Driving a machine object with events: the object goes through exactly the configurations of the run, so
 everything proved of runs holds of it, and a reset brings back the variables it was made with.
 */
module Driver {
  import opened Results
  import opened Evaluator
  import opened Statements
  import opened Environments
  import opened OutputSequences
  import opened Machines
  import opened MachineObjects

  /** Let one event happen to a machine. */
  method Perform(m: Machine, e: Event) returns (fault: Option<Fault>, out: seq<Output>)
    requires m.Valid()
    modifies m, m.environment, m.environment.Repr()
    ensures m.Valid() && (forall x | x in m.environment.Repr() :: x in old(m.environment.Repr()) || fresh(x))
    ensures match Step(m.program, old(m.Now()), e)
      case Ok(s) => fault.None? && m.Now() == s.config && out == s.out
      case Fail(f) => fault == Some(f)
  {
    hide Contents, CellSet, Separated, Injective, MethodTable, PropertyTable, Bucket;
    hide Machines.CallMethod, Machines.SetProperty, Machines.MakeArbitraryTransition;
    var output := new OutputSequence();
    Apart(m, output, m.environment);
    SetTape(m, e.tape);
    match e.action {
      case Call(interfaceName, methodName, params) =>
        fault := m.CallMethod(interfaceName, methodName, params, e.enable, e.permits, output);
      case Set(name, v) =>
        var r := m.SetProperty(name, v, e.enable, e.permits, output);
        fault := if r.Fail? then Some(r.fault) else None;
      case Timeout =>
        fault := Arbitrary(m, output, e.enable, e.permits);
      case Restart =>
        m.ResetState();
        fault := None;
    }
    out := output.queue;
  }

  method Arbitrary(m: Machine, output: OutputSequence, enable: bool, permits: nat -> bool)
    returns (fault: Option<Fault>)
    requires m.Valid()
    modifies m, m.environment.Repr(), output
    ensures m.Valid() && m.environment.Repr() == old(m.environment.Repr())
    ensures match Machines.MakeArbitraryTransition(m.program, old(m.Now()), enable, permits)
      case Ok(s) => fault.None? && m.Now() == s.config && output.queue == old(output.queue) + s.out
      case Fail(f) => fault == Some(f)
  {
    hide Machines.MakeArbitraryTransition, Machine.Valid, Contents;
    fault := m.MakeArbitraryTransition(output, enable, permits);
  }

  /** The draws of the next event. */
  method SetTape(m: Machine, tape: nat -> Draw)
    requires m.Valid()
    modifies m
    ensures m.Valid() && m.environment.Repr() == old(m.environment.Repr())
    ensures m.Now() == old(m.Now()).(fuzz := old(m.fuzz).(tape := tape, pos := 0))
  {
    hide Contents, Separated, Injective, MethodTable, PropertyTable, Bucket;
    m.fuzz := m.fuzz.(tape := tape, pos := 0);
  }

  /** A run fails as soon as a prefix of it does. */
  lemma {:induction false} RunPrefixFails(p: Program, c: Config, es: seq<Event>, i: nat)
    requires i <= |es| && Run(p, c, es[..i]).Fail?
    ensures Run(p, c, es) == Run(p, c, es[..i])
    decreases |es|
  {
    hide Step;
    if i == |es| {
      assert es[..i] == es;
    } else {
      var init := es[..|es| - 1];
      assert init[..i] == es[..i];
      RunPrefixFails(p, c, init, i);
    }
  }

  /** Let a run of events happen to a machine. */
  method PerformAll(m: Machine, es: seq<Event>) returns (fault: Option<Fault>)
    requires m.Valid()
    modifies m, m.environment, m.environment.Repr()
    ensures m.Valid()
    ensures match Run(m.program, old(m.Now()), es)
      case Ok(c) => fault.None? && m.Now() == c
      case Fail(f) => fault == Some(f)
  {
    hide Contents, CellSet, Separated, Injective, Machine.Valid, Machine.Now, Step;
    ghost var c0 := m.Now();
    var i := 0;
    assert es[..0] == [];
    while i < |es|
      invariant 0 <= i <= |es| && m.Valid()
      invariant forall x | x in m.environment.Repr() :: x in old(m.environment.Repr()) || fresh(x)
      invariant Run(m.program, c0, es[..i]) == Ok(m.Now())
    {
      assert es[..i + 1][..i] == es[..i];
      var out;
      fault, out := Perform(m, es[i]);
      if fault.Some? {
        RunPrefixFails(m.program, c0, es, i + 1);
        return;
      }
      i := i + 1;
    }
    assert es[..|es|] == es;
    fault := None;
  }

  /** Whatever has happened to a machine, a reset restores its first state and the variables it was made with. */
  method RunAndReset(m: Machine, es: seq<Event>) returns (fault: Option<Fault>)
    requires m.Valid()
    modifies m, m.environment, m.environment.Repr()
    ensures m.Valid()
    ensures fault.None? ==> m.state == 0 && m.environment.AsEnv() == m.program.initial
  {
    hide Contents, CellSet, Separated, Injective, Machine.Valid, Run;
    fault := PerformAll(m, es);
    if fault.None? {
      m.ResetState();
    }
  }
}
