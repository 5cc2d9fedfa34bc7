/**
 Building the initial variables of an object: each is checked, evaluated and stored in turn.
 */
module InitialStore {
  import opened Results
  import opened VariantTypes
  import opened Language
  import opened Evaluator
  import opened EffectFree
  import opened Fuzzing
  import opened TypeSoundness
  import opened UniqueKeys
  import opened Statements
  import opened Environments

  datatype Definition = Definition(name: string, init: Expr)

  datatype Store = Store(env: Env, st: Fuzz)

  /** Evaluate one definition and store its type and value, which its assertions want to be new. */
  function Define(s: Store, d: Definition): Result<Store> {
    var ty := Check(d.init, s.env);
    if ty.None? then Fail(TypeFault) else
      var o := Eval(d.init, s.env, s.st);
      var v :- o.res;
      var declared :- DeclareVariable(s.env, Object, d.name, ty.value);
      var env :- SetVariable(declared, Object, d.name, v);
      Ok(Store(env, o.st))
  }

  function DefineAll(s: Store, ds: seq<Definition>): Result<Store>
    decreases ds
  {
    if ds == [] then Ok(s) else
      var s' :- Define(s, ds[0]);
      DefineAll(s', ds[1..])
  }

  /** The loop of dfsm_ast_object_check() over the variables, in whatever order the tables yield them. */
  method DefineVariables(environment: Environment, ds: seq<Definition>, st0: Fuzz) returns (r: Result<Fuzz>)
    requires environment.Valid()
    modifies environment, environment.Repr()
    ensures environment.Valid() && (forall x | x in environment.Repr() :: x in old(environment.Repr()) || fresh(x))
    ensures match DefineAll(Store(old(environment.AsEnv()), st0), ds)
      case Ok(s) => r == Ok(s.st) && environment.AsEnv() == s.env
      case Fail(f) => r == Fail(f)
  {
    hide Contents, Separated, Injective, Define;
    ghost var start := Store(environment.AsEnv(), st0);
    var st := st0;
    for i := 0 to |ds|
      invariant environment.Valid() && (forall x | x in environment.Repr() :: x in old(environment.Repr()) || fresh(x))
      invariant DefineAll(start, ds) == DefineAll(Store(environment.AsEnv(), st), ds[i..])
    {
      assert ds[i..][1..] == ds[i + 1..];
      r := DefineVariable(environment, ds[i], st);
      if r.Fail? {
        return;
      }
      st := r.value;
    }
    r := Ok(st);
  }

  method DefineVariable(environment: Environment, d: Definition, st: Fuzz) returns (r: Result<Fuzz>)
    requires environment.Valid()
    modifies environment, environment.Repr()
    ensures environment.Valid() && (forall x | x in environment.Repr() :: x in old(environment.Repr()) || fresh(x))
    ensures match Define(Store(old(environment.AsEnv()), st), d)
      case Ok(s) => r == Ok(s.st) && environment.AsEnv() == s.env
      case Fail(f) => r == Fail(f)
  {
    hide Contents, Separated, Injective, Check, Eval, SetVariable, DeclareVariable;
    var ty := Check(d.init, environment.AsEnv());
    if ty.None? {
      return Fail(TypeFault);
    }
    var o := Eval(d.init, environment.AsEnv(), st);
    if o.res.Fail? {
      return Fail(o.res.fault);
    }
    var fault := environment.SetVariableType(Object, d.name, ty.value);
    if fault.Some? {
      return Fail(fault.value);
    }
    fault := environment.SetVariableValue(Object, d.name, o.res.value);
    r := if fault.Some? then Fail(fault.value) else Ok(o.st);
  }

  // ----- values -----------------------------------------------------------------------------------

  /**
   The variable has the type of its definition, and a value that this can have in what the definitions before it left,
   which is its plain value where nothing is fuzzed.
   */
  ghost predicate HoldsDefinition(before: Store, d: Definition, env: Env, hot: set<nat>) {
    && d.name in env.objects && env.objects[d.name].value.Some?
    && Check(d.init, before.env) == Some(env.objects[d.name].ty)
    && MayHave(d.init, before.env, hot, env.objects[d.name].value.value)
    && (hot == {} ==> Plain(d.init, before.env) == Ok(env.objects[d.name].value.value))
  }

  predicate KeepsObjects(env: Env, env': Env) {
    forall x | x in env.objects :: x in env'.objects && env'.objects[x] == env.objects[x]
  }

  lemma DefineHolds(s: Store, d: Definition, hot: set<nat>)
    requires Heats(s.st, hot) && Define(s, d).Ok?
    ensures var s' := Define(s, d).value;
      && HoldsDefinition(s, d, s'.env, hot) && KeepsObjects(s.env, s'.env) && Heats(s'.st, hot)
      && s'.env.objects.Keys == s.env.objects.Keys + {d.name}
  {
    hide Eval, Check, MayHave, Heats, Subtype;
    EvalMayHave(d.init, s.env, s.st, hot);
    EvalOnlyDraws(d.init, s.env, s.st);
    HeatsOn(s.st, Eval(d.init, s.env, s.st).st, hot);
    PlainMayHave(d.init, s.env, hot, Eval(d.init, s.env, s.st).res.value);
  }

  /** The variables of an object are those it had and those defined, each as its definition says. */
  lemma {:induction false} InitialValues(s: Store, ds: seq<Definition>, i: nat)
    requires DefineAll(s, ds).Ok? && i < |ds|
    ensures KeepsObjects(s.env, DefineAll(s, ds).value.env) && DefineAll(s, ds[..i]).Ok?
    ensures HoldsDefinition(DefineAll(s, ds[..i]).value, ds[i], DefineAll(s, ds).value.env, Hot(s.st))
  {
    hide HoldsDefinition, KeepsObjects, DefineAll;
    HotHeats(s.st);
    ValuesOf(s, ds, i, Hot(s.st));
    ObjectsKept(s, ds, Hot(s.st));
  }

  lemma {:induction false} ValuesOf(s: Store, ds: seq<Definition>, i: nat, hot: set<nat>)
    requires Heats(s.st, hot) && DefineAll(s, ds).Ok? && i < |ds|
    ensures DefineAll(s, ds[..i]).Ok?
    ensures HoldsDefinition(DefineAll(s, ds[..i]).value, ds[i], DefineAll(s, ds).value.env, hot)
    decreases i
  {
    hide Define, HoldsDefinition, KeepsObjects, Heats;
    DefineHolds(s, ds[0], hot);
    var s' := Define(s, ds[0]).value;
    if i == 0 {
      assert ds[..0] == [];
      ObjectsKept(s', ds[1..], hot);
      StillHolds(s, ds[0], s'.env, DefineAll(s, ds).value.env, hot);
    } else {
      ValuesOf(s', ds[1..], i - 1, hot);
      assert ds[..i][0] == ds[0] && ds[..i][1..] == ds[1..][..i - 1] && ds[1..][i - 1] == ds[i];
    }
  }

  lemma StillHolds(before: Store, d: Definition, env: Env, env': Env, hot: set<nat>)
    requires HoldsDefinition(before, d, env, hot) && KeepsObjects(env, env')
    ensures HoldsDefinition(before, d, env', hot)
  {
    hide MayHave, Check;
  }

  lemma {:induction false} ObjectsKept(s: Store, ds: seq<Definition>, hot: set<nat>)
    requires Heats(s.st, hot) && DefineAll(s, ds).Ok?
    ensures KeepsObjects(s.env, DefineAll(s, ds).value.env)
    decreases |ds|
  {
    hide Define, HoldsDefinition, Heats;
    if ds != [] {
      DefineHolds(s, ds[0], hot);
      ObjectsKept(Define(s, ds[0]).value, ds[1..], hot);
    }
  }

  /** And there are no others. */
  lemma {:induction false} InitialNames(s: Store, ds: seq<Definition>, x: string)
    requires DefineAll(s, ds).Ok? && x in DefineAll(s, ds).value.env.objects && x !in s.env.objects
    ensures exists i :: 0 <= i < |ds| && ds[i].name == x
    decreases |ds|
  {
    hide Define;
    if ds != [] {
      HotHeats(s.st);
      hide Heats;
      DefineHolds(s, ds[0], Hot(s.st));
      var s' := Define(s, ds[0]).value;
      if x in s'.env.objects {
        assert ds[0].name == x;
      } else {
        InitialNames(s', ds[1..], x);
        var i :| 0 <= i < |ds[1..]| && ds[1..][i].name == x;
        assert ds[i + 1].name == x;
      }
    }
  }

  // ----- conformance ------------------------------------------------------------------------------

  /** The variable is new and the store conforms, or one of the faults has stopped the definition. */
  predicate Defined(r: Result<Store>, s: Store, name: string, fs: set<Fault>) {
    match r
    case Ok(s') =>
      Conforms(s'.env) && s'.env.locals == s.env.locals && s'.env.objects.Keys == s.env.objects.Keys + {name}
    case Fail(f) => Untypable(f) && f in fs
  }

  /** A guarded definition of a new name keeps the store conforming; one of an old name fails an assertion. */
  lemma DefineConforms(s: Store, d: Definition, fs: set<Fault>)
    requires Conforms(s.env) && Ready(d.init, s.env) && Tame(d.init, s.env, fs)
    ensures d.name !in s.env.objects ==> Defined(Define(s, d), s, d.name, fs)
    ensures d.name in s.env.objects ==> Define(s, d).Fail?
  {
    hide Eval, WellFormed, TypeOf, Definite, BasicKeys, Subtype, Check, Guarded, Parsed, Tame;
    EvalSound(d.init, s.env, s.st, fs);
    CheckUsable(d.init, s.env);
    SubtypeReflexive(Check(d.init, s.env).value);
  }

  /** Every definition is ready when its turn comes. */
  ghost predicate AllReady(s: Store, ds: seq<Definition>)
    decreases ds
  {
    ds != [] ==>
      && Ready(ds[0].init, s.env)
      && (Define(s, ds[0]).Ok? ==> AllReady(Define(s, ds[0]).value, ds[1..]))
  }

  /** The initial store of an accepted object conforms, and has no local variables. */
  lemma {:induction false} InitialStoreConforms(s: Store, ds: seq<Definition>)
    requires Conforms(s.env) && AllReady(s, ds) && DefineAll(s, ds).Ok?
    ensures Conforms(DefineAll(s, ds).value.env) && DefineAll(s, ds).value.env.locals == s.env.locals
    ensures forall i | 0 <= i < |ds| :: ds[i].name in DefineAll(s, ds).value.env.objects && ds[i].name !in s.env.objects
    ensures s.env.objects.Keys <= DefineAll(s, ds).value.env.objects.Keys
    decreases ds
  {
    hide Conforms, Ready, Define;
    if ds != [] {
      AlwaysTame(ds[0].init, s.env);
      DefineConforms(s, ds[0], UNTYPABLE);
      var s' := Define(s, ds[0]).value;
      InitialStoreConforms(s', ds[1..]);
      forall i | 0 < i < |ds| ensures ds[i].name in DefineAll(s, ds).value.env.objects && ds[i].name !in s.env.objects {
        assert ds[1..][i - 1] == ds[i];
      }
    }
  }

  // ----- unique keys ------------------------------------------------------------------------------

  /** No definition has a source of repeated keys. */
  ghost predicate AllRepeatFree(s: Store, ds: seq<Definition>, hot: set<nat>)
    decreases ds
  {
    ds != [] ==>
      && RepeatFree(ds[0].init, s.env, hot)
      && (Define(s, ds[0]).Ok? ==> AllRepeatFree(Define(s, ds[0]).value, ds[1..], hot))
  }

  lemma DefineUnique(s: Store, d: Definition, hot: set<nat>)
    requires CleanStore(s.env, s.st, hot) && Ready(d.init, s.env) && RepeatFree(d.init, s.env, hot)
    ensures Define(s, d) != Fail(DuplicateKey)
    ensures Define(s, d).Ok? ==> CleanStore(Define(s, d).value.env, Define(s, d).value.st, hot)
  {
    hide Eval, WellFormed, TypeOf, Definite, BasicKeys, Subtype, Check, Guarded, Parsed, Tame, RepeatFree, UniqueValue;
    AlwaysTame(d.init, s.env);
    DefineConforms(s, d, UNTYPABLE);
    EvalUnique(d.init, s.env, s.st, hot);
    EvalOnlyDraws(d.init, s.env, s.st);
  }

  /** The initial store holds no dictionary with a repeated key, and no definition of it fails in dictSet(). */
  lemma {:induction false} InitialStoreUnique(s: Store, ds: seq<Definition>, hot: set<nat>)
    requires CleanStore(s.env, s.st, hot) && AllReady(s, ds) && AllRepeatFree(s, ds, hot)
    ensures DefineAll(s, ds) != Fail(DuplicateKey)
    ensures DefineAll(s, ds).Ok? ==> UniqueEnv(DefineAll(s, ds).value.env)
    decreases ds
  {
    hide Conforms, UniqueEnv, Ready, RepeatFree, Define;
    if ds != [] {
      DefineUnique(s, ds[0], hot);
      if Define(s, ds[0]).Ok? { InitialStoreUnique(Define(s, ds[0]).value, ds[1..], hot); }
    }
  }
}
