/**
 The laws of structured assignment: it stores each part of the value in the variable at its place,
 leaves every other variable alone, and changes no type.
 */
module Assignment {
  import opened Results
  import opened Sequences
  import opened VariantTypes
  import opened Language
  import opened Evaluator
  import opened EffectFree
  import opened TypeSoundness
  import opened Statements

  type Place = (Scope, string)

  /** The variables a target assigns to, in order. */
  function Places(e: Expr): seq<Place> {
    match e
    case Data(_, _, lit) => LiteralPlaces(lit)
    case _ => []
  }

  function LiteralPlaces(lit: Literal): seq<Place> {
    match lit
    case LArray(items) => AllPlaces(items)
    case LStruct(items) => AllPlaces(items)
    case LVariable(scope, name) => [(scope, name)]
    case _ => []
  }

  function AllPlaces(es: seq<Expr>): seq<Place> {
    if es == [] then [] else Places(es[0]) + AllPlaces(es[1..])
  }

  function Lookup(env: Env, p: Place): Option<Variable> {
    if p.1 in env.Table(p.0) then Some(env.Table(p.0)[p.1]) else None
  }

  /** Two environments with the same names and types that agree outside the given places. */
  ghost predicate AgreeOutside(env: Env, env': Env, ps: seq<Place>) {
    && SameTypes(env, env')
    && forall p: Place :: p !in ps ==> Lookup(env', p) == Lookup(env, p)
  }

  ghost predicate AgreeOn(env: Env, env': Env, ps: seq<Place>) {
    forall p :: p in ps ==> Lookup(env', p) == Lookup(env, p)
  }

  // ----- frame ------------------------------------------------------------------------------------

  /** Assignment changes only its target's variables, and no variable's type. */
  lemma {:induction false} SetFromFrame(target: Expr, env: Env, v: Value)
    requires SetFrom(target, env, v).Ok?
    ensures AgreeOutside(env, SetFrom(target, env, v).value, Places(target))
    decreases target
  {
    match target.lit
    case LArray(items) => SetAllFrame(items, env, Children(v));
    case LStruct(items) => SetAllFrame(items, env, Children(v));
    case _ =>
  }

  lemma {:induction false} SetAllFrame(targets: seq<Expr>, env: Env, vs: seq<Value>)
    requires SetAll(targets, env, vs).Ok?
    ensures AgreeOutside(env, SetAll(targets, env, vs).value, AllPlaces(targets))
    decreases targets
  {
    if targets != [] {
      SetFromFrame(targets[0], env, vs[0]);
      SetAllFrame(targets[1..], SetFrom(targets[0], env, vs[0]).value, vs[1..]);
    }
  }

  // ----- success and conformance ------------------------------------------------------------------

  /** A value that exists keeps the store conforming wherever it can be stored. */
  lemma {:induction false} SetFromConforms(target: Expr, env: Env, v: Value)
    requires Conforms(env) && WellFormed(v) && SetFrom(target, env, v).Ok?
    ensures Conforms(SetFrom(target, env, v).value)
    decreases target
  {
    hide Conforms, WellFormed, TypeOf, Subtype;
    ChildrenExist(v);
    match target.lit
    case LArray(items) => SetAllConforms(items, env, Children(v));
    case LStruct(items) => SetAllConforms(items, env, Children(v));
    case LVariable(scope, name) => SetVariableConforms(env, scope, name, v);
    case _ =>
  }

  lemma ChildrenExist(v: Value)
    requires WellFormed(v)
    ensures forall i | 0 <= i < |Children(v)| :: WellFormed(Children(v)[i])
  {
  }

  lemma SetVariableConforms(env: Env, scope: Scope, name: string, v: Value)
    requires Conforms(env) && WellFormed(v) && SetVariable(env, scope, name, v).Ok?
    ensures Conforms(SetVariable(env, scope, name, v).value)
  {
    hide WellFormed, TypeOf, Subtype, Definite, BasicKeys;
    SubtypeOfDefinite(TypeOf(v), env.Table(scope)[name].ty);
  }

  lemma {:induction false} SetAllConforms(targets: seq<Expr>, env: Env, vs: seq<Value>)
    requires Conforms(env) && SetAll(targets, env, vs).Ok?
    requires forall i | 0 <= i < |vs| :: WellFormed(vs[i])
    ensures Conforms(SetAll(targets, env, vs).value)
    decreases targets
  {
    hide Conforms, WellFormed;
    if targets != [] {
      SetFromConforms(targets[0], env, vs[0]);
      SetAllConforms(targets[1..], SetFrom(targets[0], env, vs[0]).value, vs[1..]);
    }
  }

  /** Assigning to structs of variables succeeds whenever the types agree. */
  lemma {:induction false} StructAssignmentSucceeds(target: Expr, env: Env, v: Value)
    requires Conforms(env) && StructTarget(target) && Check(target, env).Some?
    requires HasType(v, Check(target, env).value)
    ensures SetFrom(target, env, v).Ok?
    decreases target
  {
    match target.lit
    case LStruct(items) =>
      var ts := CheckAll(items, env).value;
      forall i | 0 <= i < |items| ensures Definite(ts[i]) { CheckedIsDefinite(items[i], env); }
      SubtypeOfDefinite(Check(target, env).value, TTuple(ts));
      SubtypeReflexive(TTuple(ts));
      TupleItems(v, ts);
      StructAssignmentsSucceed(items, ts, env, v.items);
    case LVariable(scope, name) =>
      SubtypeOfDefinite(Check(target, env).value, env.Table(scope)[name].ty);
      SubtypeReflexive(TypeOf(v));
  }

  lemma CheckedIsDefinite(e: Expr, env: Env)
    requires e.Data? && Check(e, env).Some?
    ensures Definite(Check(e, env).value)
  {
  }

  lemma {:induction false} StructAssignmentsSucceed(targets: seq<Expr>, ts: seq<Ty>, env: Env, vs: seq<Value>)
    requires Conforms(env) && |targets| == |ts| == |vs|
    requires forall i | 0 <= i < |targets| :: StructTarget(targets[i]) && Check(targets[i], env) == Some(ts[i])
    requires forall i | 0 <= i < |targets| :: HasType(vs[i], ts[i])
    ensures SetAll(targets, env, vs).Ok?
    decreases targets
  {
    if targets != [] {
      StructAssignmentSucceeds(targets[0], env, vs[0]);
      var env' := SetFrom(targets[0], env, vs[0]).value;
      SetFromFrame(targets[0], env, vs[0]);
      SetFromConforms(targets[0], env, vs[0]);
      forall i | 0 < i < |targets| ensures Check(targets[i], env') == Some(ts[i]) {
        CheckDependsOnTypes(targets[i], env, env');
      }
      StructAssignmentsSucceed(targets[1..], ts[1..], env', vs[1..]);
    }
  }

  /** Targets of structs and arrays of variables, without dictionaries. */
  predicate ListTarget(e: Expr) {
    match e
    case Data(_, _, lit) => (
      match lit
      case LArray(items) => forall i | 0 <= i < |items| :: ListTarget(items[i])
      case LStruct(items) => forall i | 0 <= i < |items| :: ListTarget(items[i])
      case LVariable(_, _) => true
      case _ => false)
    case _ => false
  }

  /** The value has at least as many parts as the target, everywhere. */
  predicate Covers(target: Expr, v: Value) {
    match target
    case Data(_, _, lit) => (
      match lit
      case LArray(items) => |items| <= |Children(v)| && forall i | 0 <= i < |items| :: Covers(items[i], Children(v)[i])
      case LStruct(items) => |items| <= |Children(v)| && forall i | 0 <= i < |items| :: Covers(items[i], Children(v)[i])
      case _ => true)
    case _ => true
  }

  /** Assigning to lists of variables, when the types agree, fails exactly where an array is too short. */
  lemma {:induction false} ListAssignmentSucceedsIff(target: Expr, env: Env, v: Value)
    requires Conforms(env) && ListTarget(target) && Ready(target, env) && HasType(v, Check(target, env).value)
    ensures SetFrom(target, env, v).Ok? <==> Covers(target, v)
    decreases target
  {
    hide WellFormed, TypeOf, CheckLiteral, Guarded, Conforms;
    var ty := Check(target, env).value;
    ConformingTypes(env);
    AcceptedLiteralReady(target, env);
    match target.lit
    case LArray(items) =>
      ElementsReady(items, ty, env);
      ArrayItems(v, ty.elem);
      ListAssignmentsSucceedIff(items, seq(|items|, i => ty.elem), env, v.items);
    case LStruct(items) =>
      var ts := StructTypes(items, ty, env);
      TupleItems(v, ts);
      ListAssignmentsSucceedIff(items, ts, env, v.items);
    case LVariable(scope, name) => VariableTakes(target, env, v);
  }

  lemma VariableTakes(target: Expr, env: Env, v: Value)
    requires target.Data? && target.lit.LVariable? && Conforms(env) && Check(target, env).Some?
    requires HasType(v, Check(target, env).value)
    ensures SetFrom(target, env, v).Ok?
  {
    SubtypeOfDefinite(Check(target, env).value, env.Table(target.lit.scope)[target.lit.name].ty);
    SubtypeReflexive(TypeOf(v));
  }

  lemma {:induction false} ListAssignmentsSucceedIff(targets: seq<Expr>, ts: seq<Ty>, env: Env, vs: seq<Value>)
    requires Conforms(env) && |targets| == |ts|
    requires forall i | 0 <= i < |targets| :: ListTarget(targets[i]) && Ready(targets[i], env)
    requires forall i | 0 <= i < |targets| :: Check(targets[i], env) == Some(ts[i])
    requires forall i | 0 <= i < |vs| && i < |ts| :: HasType(vs[i], ts[i])
    requires forall i | 0 <= i < |vs| :: WellFormed(vs[i])
    ensures SetAll(targets, env, vs).Ok? <==>
      |targets| <= |vs| && forall i | 0 <= i < |targets| :: Covers(targets[i], vs[i])
    decreases targets
  {
    hide WellFormed, TypeOf, Conforms, Check, Guarded, Parsed, Covers;
    if targets != [] && vs != [] {
      ListAssignmentSucceedsIff(targets[0], env, vs[0]);
      if SetFrom(targets[0], env, vs[0]).Ok? {
        var env' := SetFrom(targets[0], env, vs[0]).value;
        SetFromFrame(targets[0], env, vs[0]);
        SetFromConforms(targets[0], env, vs[0]);
        forall i | 0 < i < |targets| ensures Ready(targets[i], env') && Check(targets[i], env') == Some(ts[i]) {
          CheckDependsOnTypes(targets[i], env, env');
          GuardedDependsOnTypes(targets[i], env, env');
        }
        ListAssignmentsSucceedIff(targets[1..], ts[1..], env', vs[1..]);
        if |targets| <= |vs| { CoversCons(targets, vs); }
      }
    }
  }

  lemma CoversCons(targets: seq<Expr>, vs: seq<Value>)
    requires targets != [] && vs != [] && |targets| <= |vs|
    ensures (forall i | 0 <= i < |targets| :: Covers(targets[i], vs[i])) <==>
      Covers(targets[0], vs[0]) && forall i | 0 <= i < |targets[1..]| :: Covers(targets[1..][i], vs[1..][i])
  {
    hide Covers;
    if Covers(targets[0], vs[0]) && forall i | 0 <= i < |targets[1..]| :: Covers(targets[1..][i], vs[1..][i]) {
      forall i | 0 <= i < |targets| ensures Covers(targets[i], vs[i]) {
        if i > 0 { assert targets[i] == targets[1..][i - 1] && vs[i] == vs[1..][i - 1]; }
      }
    }
  }

  // ----- reading back -----------------------------------------------------------------------------

  /** The value has the shape of the target: as many children everywhere. */
  predicate Fits(target: Expr, v: Value) {
    match target
    case Data(_, _, lit) => FitsLiteral(lit, v)
    case _ => false
  }

  predicate FitsLiteral(lit: Literal, v: Value) {
    match lit
    case LArray(items) => v.VArray? && FitsAll(items, v.items)
    case LStruct(items) => v.VTuple? && FitsAll(items, v.items)
    case LVariable(_, _) => true
    case _ => false
  }

  predicate FitsAll(targets: seq<Expr>, vs: seq<Value>) {
    |targets| == |vs| && forall i | 0 <= i < |targets| :: Fits(targets[i], vs[i])
  }

  /** The value a target holds: what is stored at its places, put together in its shape. */
  ghost predicate Holds(target: Expr, env: Env, v: Value) {
    match target
    case Data(_, _, lit) => HoldsLiteral(lit, env, v)
    case _ => false
  }

  ghost predicate HoldsLiteral(lit: Literal, env: Env, v: Value) {
    match lit
    case LArray(items) => v.VArray? && HoldsAll(items, env, v.items)
    case LStruct(items) => v.VTuple? && HoldsAll(items, env, v.items)
    case LVariable(scope, name) =>
      name in env.Table(scope) && env.Table(scope)[name].value == Some(v)
    case _ => false
  }

  ghost predicate HoldsAll(targets: seq<Expr>, env: Env, vs: seq<Value>) {
    |targets| == |vs| && forall i | 0 <= i < |targets| :: Holds(targets[i], env, vs[i])
  }

  lemma {:induction false} HoldsDependsOnPlaces(target: Expr, env: Env, env': Env, v: Value)
    requires Holds(target, env, v) && AgreeOn(env, env', Places(target))
    ensures Holds(target, env', v)
    decreases target
  {
    assert Places(target) == LiteralPlaces(target.lit);
    match target.lit
    case LArray(items) => HoldsAllDependOnPlaces(items, env, env', v.items);
    case LStruct(items) => HoldsAllDependOnPlaces(items, env, env', v.items);
    case LVariable(scope, name) => assert (scope, name) in Places(target);
  }

  lemma {:induction false} HoldsAllDependOnPlaces(targets: seq<Expr>, env: Env, env': Env, vs: seq<Value>)
    requires HoldsAll(targets, env, vs) && AgreeOn(env, env', AllPlaces(targets))
    ensures HoldsAll(targets, env', vs)
    decreases targets
  {
    if targets != [] {
      HoldsDependsOnPlaces(targets[0], env, env', vs[0]);
      HoldsAllDependOnPlaces(targets[1..], env, env', vs[1..]);
      HoldsCons(targets, env', vs);
    }
  }

  lemma HoldsCons(targets: seq<Expr>, env: Env, vs: seq<Value>)
    requires targets != [] && vs != [] && Holds(targets[0], env, vs[0]) && HoldsAll(targets[1..], env, vs[1..])
    ensures HoldsAll(targets, env, vs)
  {
    forall i | 0 <= i < |targets| ensures Holds(targets[i], env, vs[i]) {
      if i > 0 { assert targets[i] == targets[1..][i - 1] && vs[i] == vs[1..][i - 1]; }
    }
  }

  /** After an assignment to distinct variables the target holds the value assigned, part by part. */
  lemma {:induction false} AssignedIsHeld(target: Expr, env: Env, v: Value)
    requires SetFrom(target, env, v).Ok? && Fits(target, v) && Distinct(Places(target))
    ensures Holds(target, SetFrom(target, env, v).value, v)
    decreases target
  {
    assert Places(target) == LiteralPlaces(target.lit);
    match target.lit
    case LArray(items) => AllAssignedAreHeld(items, env, v.items);
    case LStruct(items) => AllAssignedAreHeld(items, env, v.items);
    case LVariable(_, _) =>
  }

  lemma {:induction false} AllAssignedAreHeld(targets: seq<Expr>, env: Env, vs: seq<Value>)
    requires SetAll(targets, env, vs).Ok? && FitsAll(targets, vs) && Distinct(AllPlaces(targets))
    ensures HoldsAll(targets, SetAll(targets, env, vs).value, vs)
    decreases targets
  {
    if targets != [] {
      var env1 := SetFrom(targets[0], env, vs[0]).value;
      var env2 := SetAll(targets[1..], env1, vs[1..]).value;
      DistinctParts(Places(targets[0]), AllPlaces(targets[1..]));
      AssignedIsHeld(targets[0], env, vs[0]);
      AllAssignedAreHeld(targets[1..], env1, vs[1..]);
      SetAllFrame(targets[1..], env1, vs[1..]);
      HoldsDependsOnPlaces(targets[0], env1, env2, vs[0]);
      HoldsCons(targets, env2, vs);
    }
  }

  lemma DistinctParts(ps: seq<Place>, qs: seq<Place>)
    requires Distinct(ps + qs)
    ensures Distinct(ps) && Distinct(qs) && forall p :: p in ps ==> p !in qs
  {
    var all := ps + qs;
    forall i, j | 0 <= i < j < |ps| ensures ps[i] != ps[j] { assert all[i] != all[j]; }
    forall i, j | 0 <= i < j < |qs| ensures qs[i] != qs[j] { assert all[|ps| + i] != all[|ps| + j]; }
    forall i, j | 0 <= i < |ps| && 0 <= j < |qs| ensures ps[i] != qs[j] { assert all[i] != all[|ps| + j]; }
  }

  /** Evaluating a target that holds a value of its type gives that value. */
  lemma {:induction false} HeldIsRead(target: Expr, env: Env, v: Value)
    requires UsableTypes(env) && Ready(target, env) && IsVariable(target)
    requires Holds(target, env, v) && HasType(v, Check(target, env).value)
    ensures Eval(target, env, QUIET) == Out(Ok(v), QUIET)
    decreases target, 0
  {
    hide WellFormed, TypeOf, CheckLiteral, Guarded;
    var ty := Check(target, env).value;
    AcceptedLiteralReady(target, env);
    match target.lit
    case LArray(items) =>
      ElementsReady(items, ty, env);
      ArrayItems(v, ty.elem);
      ElementsAreRead(target.id, ty.elem, items, env, v.items);
    case LStruct(items) =>
      var ts := StructTypes(items, ty, env);
      TupleItems(v, ts);
      AllAreRead(items, ts, env, v.items);
    case LVariable(_, _) =>
  }

  lemma StructTypes(items: seq<Expr>, ty: Ty, env: Env) returns (ts: seq<Ty>)
    requires LiteralReady(ty, LStruct(items), env)
    ensures ty == TTuple(ts) && |ts| == |items|
    ensures forall i | 0 <= i < |items| :: Ready(items[i], env) && Check(items[i], env) == Some(ts[i])
  {
    ts := CheckAll(items, env).value;
  }

  lemma {:induction false} AllAreRead(targets: seq<Expr>, ts: seq<Ty>, env: Env, vs: seq<Value>)
    requires UsableTypes(env) && HoldsAll(targets, env, vs) && |ts| == |vs|
    requires forall i | 0 <= i < |targets| :: Ready(targets[i], env) && IsVariable(targets[i])
    requires forall i | 0 <= i < |targets| :: Check(targets[i], env) == Some(ts[i]) && HasType(vs[i], ts[i])
    ensures EvalAll(targets, env, QUIET) == Out(Ok(vs), QUIET)
    decreases targets, 0
  {
    hide WellFormed, TypeOf, CheckLiteral, Guarded, Check;
    if targets != [] {
      HeldIsRead(targets[0], env, vs[0]);
      AllAreRead(targets[1..], ts[1..], env, vs[1..]);
      assert vs == [vs[0]] + vs[1..];
    }
  }

  lemma {:induction false} ElementsAreRead(id: nat, elem: Ty, targets: seq<Expr>, env: Env, vs: seq<Value>)
    requires UsableTypes(env) && HoldsAll(targets, env, vs)
    requires forall i | 0 <= i < |targets| :: Ready(targets[i], env) && IsVariable(targets[i])
    requires forall i | 0 <= i < |targets| :: Check(targets[i], env) == Some(elem) && HasType(vs[i], elem)
    ensures EvalElements(id, elem, targets, env, QUIET) == Out(Ok(vs), QUIET)
    decreases targets, 0
  {
    hide CheckLiteral, Guarded, Check;
    if targets != [] {
      HeldIsRead(targets[0], env, vs[0]);
      ElementsAreRead(id, elem, targets[1..], env, vs[1..]);
      assert EvalElement(id, targets[0], env, QUIET) == Out(Ok([vs[0]]), QUIET);
      assert vs == [vs[0]] + vs[1..];
    }
  }

  // ----- the assignment statement -----------------------------------------------------------------

  /**
   The law of assignment. The right-hand side is evaluated before anything is written; afterwards the
   left-hand side evaluates to that value, every variable not assigned to is unchanged, and all types are.
   */
  lemma AssignmentLaw(target: Expr, rvalue: Expr, env: Env, st: Fuzz)
    requires Conforms(env) && Ready(rvalue, env)
    requires Ready(target, env) && IsVariable(target) && Distinct(Places(target))
    requires Subtype(Check(rvalue, env).value, Check(target, env).value)
    requires ExecStatement(Assign(target, rvalue), env, st).Ok?
    requires Fits(target, Eval(rvalue, env, st).res.value)
    ensures var v := Eval(rvalue, env, st).res.value;
      var env' := ExecStatement(Assign(target, rvalue), env, st).value.env;
      && Plain(target, env') == Ok(v)
      && AgreeOutside(env, env', Places(target))
      && Conforms(env')
  {
    var v := Eval(rvalue, env, st).res.value;
    AlwaysTame(rvalue, env);
    EvalSound(rvalue, env, st, UNTYPABLE);
    CheckUsable(target, env);
    SubtypeOfDefinite(Check(rvalue, env).value, Check(target, env).value);
    var env' := SetFrom(target, env, v).value;
    SetFromFrame(target, env, v);
    SetFromConforms(target, env, v);
    AssignedIsHeld(target, env, v);
    CheckDependsOnTypes(target, env, env');
    GuardedDependsOnTypes(target, env, env');
    HeldIsRead(target, env', v);
  }

  function Ref(id: nat, p: Place): Expr {
    Data(id, None, LVariable(p.0, p.1))
  }

  function Pair(id: nat, a: Expr, b: Expr): Expr {
    Data(id, None, LStruct([a, b]))
  }

  /** Swapping two variables by (a, b) = (b, a). */
  lemma SwapLaw(a: Place, b: Place, env: Env, st: Fuzz)
    requires a != b && Lookup(env, a).Some? && Lookup(env, b).Some?
    requires Conforms(env) && Lookup(env, a).value.ty == Lookup(env, b).value.ty
    ensures var r := ExecStatement(Assign(Pair(0, Ref(1, a), Ref(2, b)), Pair(3, Ref(4, b), Ref(5, a))), env, st);
      && r.Ok?
      && Lookup(r.value.env, a) == Lookup(env, b) && Lookup(r.value.env, b) == Lookup(env, a)
      && forall p: Place :: p != a && p != b ==> Lookup(r.value.env, p) == Lookup(env, p)
  {
    hide Eval, WellFormed, Definite, BasicKeys, SetFrom;
    var x, y := Lookup(env, a).value.value.value, Lookup(env, b).value.value.value;
    EvalPair(b, a, env, st);
    SubtypeReflexive(TypeOf(x));
    StorePair(a, b, env, y, x);
  }

  lemma StorePair(a: Place, b: Place, env: Env, v: Value, w: Value)
    requires a != b && Lookup(env, a).Some? && Lookup(env, b).Some?
    requires Subtype(TypeOf(v), Lookup(env, a).value.ty) && Subtype(TypeOf(w), Lookup(env, b).value.ty)
    ensures var r := SetFrom(Pair(0, Ref(1, a), Ref(2, b)), env, VTuple([v, w]));
      && r.Ok?
      && Lookup(r.value, a) == Some(Lookup(env, a).value.(value := Some(v)))
      && Lookup(r.value, b) == Some(Lookup(env, b).value.(value := Some(w)))
      && forall p: Place :: p != a && p != b ==> Lookup(r.value, p) == Lookup(env, p)
  {
    hide SetFrom, Lookup, Subtype, TypeOf;
    StoreOne(1, a, env, v);
    var env1 := SetFrom(Ref(1, a), env, v).value;
    StoreOne(2, b, env1, w);
    var env2 := SetFrom(Ref(2, b), env1, w).value;
    SetPair(Ref(1, a), Ref(2, b), env, env1, env2, v, w);
  }

  lemma StoreOne(id: nat, a: Place, env: Env, v: Value)
    requires Lookup(env, a).Some? && Subtype(TypeOf(v), Lookup(env, a).value.ty)
    ensures SetFrom(Ref(id, a), env, v).Ok?
    ensures Lookup(SetFrom(Ref(id, a), env, v).value, a) == Some(Lookup(env, a).value.(value := Some(v)))
    ensures forall p: Place :: p != a ==> Lookup(SetFrom(Ref(id, a), env, v).value, p) == Lookup(env, p)
  {
  }

  lemma SetPair(t0: Expr, t1: Expr, env: Env, env1: Env, env2: Env, v0: Value, v1: Value)
    requires SetFrom(t0, env, v0) == Ok(env1) && SetFrom(t1, env1, v1) == Ok(env2)
    ensures SetFrom(Pair(0, t0, t1), env, VTuple([v0, v1])) == Ok(env2)
  {
    assert [t0, t1][1..] == [t1] && [v0, v1][1..] == [v1];
    assert [t1][1..] == [] && SetAll([], env2, [v1][1..]) == Ok(env2);
    assert SetAll([t1], env1, [v1]) == Ok(env2);
    assert SetAll([t0, t1], env, [v0, v1]) == Ok(env2);
  }

  lemma EvalPair(p: Place, q: Place, env: Env, st: Fuzz)
    requires Conforms(env) && Lookup(env, p).Some? && Lookup(env, q).Some?
    ensures Eval(Pair(3, Ref(4, p), Ref(5, q)), env, st) ==
      Out(Ok(VTuple([Lookup(env, p).value.value.value, Lookup(env, q).value.value.value])), st)
  {
    hide Eval, Check, TypeOf, WellFormed, Definite, BasicKeys;
    RefIsRead(4, p, env, st);
    RefIsRead(5, q, env, st);
    var x, y := Lookup(env, p).value.value.value, Lookup(env, q).value.value.value;
    PairChecks(Ref(4, p), Ref(5, q), TypeOf(x), TypeOf(y), env);
    PairIsRead(Ref(4, p), Ref(5, q), x, y, env, st);
  }

  lemma PairChecks(e: Expr, f: Expr, t: Ty, u: Ty, env: Env)
    requires Check(e, env) == Some(t) && Check(f, env) == Some(u) && Definite(t) && Definite(u)
    ensures Check(Pair(3, e, f), env) == Some(TTuple([t, u]))
  {
    assert [e, f][1..] == [f] && [f][1..] == [] && CheckAll([], env) == Some([]);
    assert CheckAll([f], env) == Some([u] + []);
    assert [t] + ([u] + []) == [t, u];
    assert CheckAll([e, f], env) == Some([t, u]);
    assert CheckLiteral(LStruct([e, f]), env) == Some(TTuple([t, u]));
    assert Definite(TTuple([t, u]));
  }

  lemma PairIsRead(e: Expr, f: Expr, x: Value, y: Value, env: Env, st: Fuzz)
    requires Eval(e, env, st) == Out(Ok(x), st) && Eval(f, env, st) == Out(Ok(y), st)
    requires Check(Pair(3, e, f), env).Some?
    ensures Eval(Pair(3, e, f), env, st) == Out(Ok(VTuple([x, y])), st)
  {
    hide Check;
    assert [e, f][1..] == [f] && [f][1..] == [] && EvalAll([], env, st) == Out(Ok([]), st);
    assert EvalAll([f], env, st) == Out(Ok([y] + []), st);
    assert [x] + ([y] + []) == [x, y];
    assert EvalAll([e, f], env, st) == Out(Ok([x, y]), st);
  }

  lemma RefIsRead(id: nat, p: Place, env: Env, st: Fuzz)
    requires Conforms(env) && Lookup(env, p).Some?
    ensures var v := Lookup(env, p).value.value.value;
      Check(Ref(id, p), env) == Some(TypeOf(v)) && Eval(Ref(id, p), env, st) == Out(Ok(v), st) && Definite(TypeOf(v))
  {
    assert CheckLiteral(LVariable(p.0, p.1), env) == Some(Lookup(env, p).value.ty);
  }
}
