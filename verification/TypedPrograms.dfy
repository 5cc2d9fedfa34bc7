/**
 Which machines the checker must accept: exactly those in which every transition is typed where it is triggered.
 */
module TypedPrograms {
  import opened VariantTypes
  import opened Language
  import opened Transitions
  import opened Typing
  import opened Machines
  import opened Runs

  /** What is demanded of a machine apart from its transitions' types. */
  predicate SoundFrame(p: Program) {
    && p.states > 0 && (forall k | 0 <= k < |p.arcs| :: p.arcs[k].from < p.states && p.arcs[k].to < p.states)
    && p.initial.locals == map[] && Conforms(p.initial)
    && (forall i | 0 <= i < |p.interfaces| :: IntrospectedInterface(p.interfaces[i]))
    && DistinctInterfaces(p.interfaces) && PropertiesHaveVariables(p)
  }

  /** Every transition is typed where it is triggered, and its trigger is declared. */
  ghost predicate TypedProgram(p: Program) {
    SoundFrame(p) && forall k | 0 <= k < |p.arcs| :: TypedArc(p, p.arcs[k].transition)
  }

  ghost predicate TypedArc(p: Program, t: Transition) {
    ContextFor(p, t.trigger).Some? && TypedTransition(t, ContextFor(p, t.trigger).value)
  }

  lemma DBusInhabited(t: Ty)
    requires DBusType(t)
    ensures Inhabited(t) && Usable(t)
  {
    var v := DefaultValue(t);
    DBusTypeIsDefinite(t);
  }

  lemma {:induction false} ArgsInhabited(args: seq<Arg>)
    requires forall i | 0 <= i < |args| :: DBusType(args[i].ty)
    ensures forall x | x in ArgTable(args) :: DBusType(ArgTable(args)[x].ty)
    decreases args
  {
    hide DBusType;
    if args != [] { ArgsInhabited(args[1..]); }
  }

  lemma ContextInhabited(p: Program, trigger: Trigger)
    requires SoundFrame(p) && ContextFor(p, trigger).Some?
    ensures InhabitedTypes(ContextFor(p, trigger).value.env)
  {
    hide DBusType, Inhabited, Usable, Conforms;
    ConformingInhabits(p.initial);
    var locals := ContextFor(p, trigger).value.env.locals;
    match trigger {
      case MethodCall(name) =>
        DeclaredMethodFound(p.interfaces, name);
        ArgsInhabited(DeclaredMethod(p.interfaces, name).value.inArgs);
      case PropertySet(name) => DeclaredPropertyFound(p.interfaces, name);
      case Arbitrary =>
    }
    forall x | x in locals ensures Inhabited(locals[x].ty) && Usable(locals[x].ty) { DBusInhabited(locals[x].ty); }
  }

  /** The checks of a whole machine, with the guards they lack, let through exactly the typed machines. */
  lemma ProgramTypedIff(p: Program)
    ensures ReadyProgram(p) <==> TypedProgram(p)
  {
    hide Conforms, IntrospectedInterface, PropertiesHaveVariables, DistinctInterfaces, InhabitedTypes, ContextFor;
    hide TypedTransition, AcceptedTransition, GuardedTransition;
    if SoundFrame(p) {
      forall k | 0 <= k < |p.arcs| && ContextFor(p, p.arcs[k].transition.trigger).Some?
        ensures var t := p.arcs[k].transition;
          var cx := ContextFor(p, t.trigger).value;
          TypedTransition(t, cx) <==> AcceptedTransition(t, cx) && GuardedTransition(t, cx)
      {
        var trigger := p.arcs[k].transition.trigger;
        ContextInhabited(p, trigger);
        IntrospectedUsable(p, trigger);
        TransitionTypedIff(p.arcs[k].transition, ContextFor(p, trigger).value);
      }
      assert ReadyProgram(p) <==> TypedProgram(p);
    }
  }
}
