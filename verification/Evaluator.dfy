/**
 Evaluation of expressions, with fuzzing.

 Everything random is drawn from a tape, one draw after the other, so that quantifying over tapes
 quantifies over every outcome of every random choice. The weights of the data structure nodes are part
 of the state because fuzzing a child raises its weight for as long as the child is evaluated.
 */
module Evaluator {
  import opened Results
  import opened VariantTypes
  import opened SaturatingArithmetic
  import opened Containers
  import opened Language

  // ----- random choices ---------------------------------------------------------------------------

  /** One random draw, usable as a number, a string, a double or a type signature. */
  datatype Draw = Draw(n: nat, text: string, x: real, ty: Ty)

  /** enabled is the global fuzzing switch; the next draw is tape(pos). */
  datatype Fuzz = Fuzz(enabled: bool, weights: map<nat, real>, tape: nat -> Draw, pos: nat) {
    function Peek(): Draw {
      tape(pos)
    }

    function Advance(): Fuzz {
      this.(pos := pos + 1)
    }

    /** A coin flip of any bias that leaves both outcomes open. */
    function Coin(): bool {
      Peek().n % 2 == 1
    }

    /** g_random_int_range(): a number from lo up to, but not including, hi. */
    function Range(lo: int, hi: int): (r: int)
      requires lo < hi
      ensures lo <= r < hi
    {
      lo + Peek().n % (hi - lo)
    }

    function Weight(id: nat): real {
      if id in weights then weights[id] else 0.0
    }

    function SetWeight(id: nat, w: real): Fuzz {
      this.(weights := weights[id := w])
    }

    /** should_be_fuzzed(). */
    predicate Fuzzes(id: nat) {
      enabled && Weight(id) > 0.0
    }
  }

  const UINT32_RANGE: nat := 0x1_0000_0000

  /**
   fuzz_signed_int() and fuzz_unsigned_int(): a small number, the default, a boundary, or a number from
   the whole range. The draw for negative 64-bit numbers computes -1 minus an unsigned number in
   unsigned arithmetic, so it is never negative.
   */
  function FuzzInt(k: IntKind, default: int, st: Fuzz): (int, Fuzz) {
    var st1 := st.Advance();
    match st.Peek().n % 4
    case 0 => (if Signed(k) then st1.Range(-5, 6) else st1.Range(0, 11), st1.Advance())
    case 1 => (default, st1)
    case 2 => (if st1.Coin() then MinOf(k) else MaxOf(k), st1.Advance())
    case _ =>
      var st2 := st1.Advance();
      match k
      case Int64 =>
        (if st1.Coin() then st2.Range(0, UINT32_RANGE) else UINT32_RANGE - 1 - st2.Range(0, UINT32_RANGE),
         st2.Advance())
      case UInt64 => (st1.Range(0, UINT32_RANGE) * UINT32_RANGE + st2.Range(0, UINT32_RANGE), st2.Advance())
      case UInt32 => (st1.Range(0, UINT32_RANGE), st2)
      case _ => (st1.Range(MinOf(k), MaxOf(k)), st2)
  }

  function Decimal(n: nat): string
    requires n < 100
  {
    if n < 10 then [Digit(n)] else [Digit(n / 10), Digit(n % 10)]
  }

  function Digit(n: nat): char
    requires n < 10
  {
    '0' + n as char
  }

  /** fuzz_object_path(). */
  function FuzzPath(default: string, st: Fuzz): (string, Fuzz) {
    var st1 := st.Advance();
    if st.Coin() then (default, st1) else (default + Decimal(st1.Range(0, 100)), st1.Advance())
  }

  /** fuzz_type_signature(): the default or any signature. */
  function FuzzSignature(default: Ty, st: Fuzz): (Ty, Fuzz) {
    var st1 := st.Advance();
    if st.Coin() then (default, st1) else (if DBusType(st1.Peek().ty) then st1.Peek().ty else default, st1.Advance())
  }

  // ----- operators --------------------------------------------------------------------------------

  /** The spelling of a type string. */
  function Spell(t: Ty): string {
    match t
    case TBool => "b"
    case TInt(k) =>
      (match k case Byte => "y" case Int16 => "n" case UInt16 => "q" case Int32 => "i"
               case UInt32 => "u" case Int64 => "x" case UInt64 => "t")
    case TDouble => "d"
    case TString => "s"
    case TPath => "o"
    case TSignature => "g"
    case TVariant => "v"
    case TArray(e) => "a" + Spell(e)
    case TMaybe(e) => "m" + Spell(e)
    case TTuple(items) => "(" + SpellAll(items) + ")"
    case TEntry(k, v) => "{" + Spell(k) + Spell(v) + "}"
    case TAny => "*"
    case TBasic => "?"
    case TAnyTuple => "r"
  }

  function SpellAll(ts: seq<Ty>): string {
    if ts == [] then "" else Spell(ts[0]) + SpellAll(ts[1..])
  }

  predicate StringLess(a: string, b: string) {
    b != "" && (a == "" || a[0] < b[0] || (a[0] == b[0] && StringLess(a[1..], b[1..])))
  }

  /** g_variant_compare(l, r) < 0, on values of one basic type. */
  predicate Less(l: Value, r: Value) {
    match (l, r)
    case (VBool(a), VBool(b)) => !a && b
    case (VInt(_, a), VInt(_, b)) => a < b
    case (VDouble(a), VDouble(b)) => a < b
    case (VString(a), VString(b)) => StringLess(a, b)
    case (VPath(a), VPath(b)) => StringLess(a, b)
    case (VSignature(a), VSignature(b)) => StringLess(Spell(a), Spell(b))
    case _ => false
  }

  function Ordered(l: Value, r: Value, holds: bool): Result<Value> {
    if Basic(TypeOf(l)) && TypeOf(l) == TypeOf(r) then Ok(VBool(holds)) else Fail(TypeFault)
  }

  function ApplyBinary(op: BinOp, l: Value, r: Value): Result<Value> {
    match op
    case Arith(a) => (
      match (l, r)
      case (VDouble(x), VDouble(y)) => Ok(VDouble(RealCalc(a, x, y)))
      case (VInt(k, m), VInt(k', n)) =>
        if k != k' then Fail(TypeFault) else (
          match Calc(a, k, m, n)
          case Some(v) => Ok(VInt(k, v))
          case None => Fail(SignedOverflow))
      case _ => Fail(TypeFault))
    case Lt => Ordered(l, r, Less(l, r))
    case Lte => Ordered(l, r, !Less(r, l))
    case Gt => Ordered(l, r, Less(r, l))
    case Gte => Ordered(l, r, !Less(l, r))
    case Eq => Ok(VBool(l == r))
    case Neq => Ok(VBool(l != r))
    case And => if l.VBool? && r.VBool? then Ok(VBool(l.b && r.b)) else Fail(TypeFault)
    case Or => if l.VBool? && r.VBool? then Ok(VBool(l.b || r.b)) else Fail(TypeFault)
  }

  // ----- builtin functions ------------------------------------------------------------------------

  /** A GVariantBuilder for an array: every child must have the element type. */
  function Build(ret: Ty, items: seq<Value>): Result<Value> {
    if ret.TArray? && forall i | 0 <= i < |items| :: TypeOf(items[i]) == ret.elem
    then Ok(VArray(ret.elem, items)) else Fail(TypeFault)
  }

  predicate Args(p: Value, n: nat) {
    p.VTuple? && |p.items| == n
  }

  predicate DictValue(v: Value) {
    v.VArray? && IsDict(v.items)
  }

  function EntriesToTuples(d: seq<Value>): seq<Value>
    requires IsDict(d)
  {
    seq(|d|, i requires 0 <= i < |d| => VTuple([d[i].key, d[i].val]))
  }

  function Join(separator: string, parts: seq<Value>): string
    requires forall i | 0 <= i < |parts| :: parts[i].VString?
  {
    if parts == [] then "" else if |parts| == 1 then parts[0].s
    else parts[0].s + separator + Join(separator, parts[1..])
  }

  /** The builtin functions that take their parameters by value, which is all but pairKeys(). */
  function ApplyFunction(fn: Function, ret: Ty, p: Value): Result<Value> {
    match fn
    case FKeys => if DictValue(p) then Build(ret, Keys(p.items)) else Fail(TypeFault)
    case FPairKeys => Fail(TypeFault)
    case FInArray =>
      if Args(p, 2) && p.items[1].VArray? then Ok(VBool(p.items[0] in p.items[1].items)) else Fail(TypeFault)
    case FArrayGet =>
      if Args(p, 3) && p.items[0].VArray? && IsIndex(p.items[1]) then
        var a, i := p.items[0].items, p.items[1].n;
        Ok(if i >= |a| then p.items[2] else a[i])
      else Fail(TypeFault)
    case FArrayInsert =>
      if Args(p, 3) && p.items[0].VArray? && IsIndex(p.items[1])
      then Build(ret, InsertAt(p.items[0].items, p.items[1].n, p.items[2])) else Fail(TypeFault)
    case FArrayRemove =>
      if Args(p, 2) && p.items[0].VArray? && IsIndex(p.items[1])
      then Build(ret, RemoveAt(p.items[0].items, p.items[1].n)) else Fail(TypeFault)
    case FDictSet =>
      if Args(p, 3) && DictValue(p.items[0]) then
        var d :- DictSet(p.items[0].items, p.items[1], p.items[2]);
        Build(ret, d)
      else Fail(TypeFault)
    case FDictUnset =>
      if Args(p, 2) && DictValue(p.items[0])
      then Build(ret, DictUnset(p.items[0].items, p.items[1])) else Fail(TypeFault)
    case FDictGet =>
      if Args(p, 3) && DictValue(p.items[0])
      then Ok(DictGet(p.items[0].items, p.items[1], p.items[2])) else Fail(TypeFault)
    case FDictToTupleArray =>
      if Args(p, 1) && DictValue(p.items[0]) then Build(ret, EntriesToTuples(p.items[0].items)) else Fail(TypeFault)
    case FStructHead =>
      if Args(p, 1) && p.items[0].VTuple? && |p.items[0].items| > 0 then Ok(p.items[0].items[0]) else Fail(TypeFault)
    case FStringJoin =>
      if Args(p, 2) && p.items[0].VString? && p.items[1].VArray?
         && forall i | 0 <= i < |p.items[1].items| :: p.items[1].items[i].VString?
      then Ok(VString(Join(p.items[0].s, p.items[1].items))) else Fail(TypeFault)
  }

  predicate IsIndex(v: Value) {
    v.VInt? && v.kind.UInt32? && v.n >= 0
  }

  // ----- evaluation -------------------------------------------------------------------------------

  datatype Out<+T> = Out(res: Result<T>, st: Fuzz)

  function Eval(e: Expr, env: Env, st: Fuzz): Out<Value>
    decreases e, 0
  {
    match e
    case Data(id, _, lit) => (
      match Check(e, env)
      case None => Out(Fail(TypeFault), st)
      case Some(ty) => EvalLiteral(id, ty, lit, env, st))
    case Not(c) => (
      var out := Eval(c, env, st);
      match out.res
      case Fail(_) => out
      case Ok(v) => Out(if v.VBool? then Ok(VBool(!v.b)) else Fail(TypeFault), out.st))
    case Binary(op, l, r) => (
      var left := Eval(l, env, st);
      if left.res.Fail? then left else
        var right := Eval(r, env, left.st);
        if right.res.Fail? then right else
          Out(ApplyBinary(op, left.res.value, right.res.value), right.st))
    case Call(fn, p) => (
      match Check(e, env)
      case None => Out(Fail(TypeFault), st)
      case Some(ret) =>
        var params := Eval(p, env, st);
        if params.res.Fail? then params
        else if fn.FPairKeys? then
          if Args(params.res.value, 2) && params.res.value.items[0].VArray?
          then EvalPairs(p, ret, params.res.value.items[0].items, env, params.st)
          else Out(Fail(TypeFault), params.st)
        else Out(ApplyFunction(fn, ret, params.res.value), params.st))
  }

  /** pairKeys() evaluates its parameters afresh for each key, to fuzz each value on its own. */
  function EvalPairs(p: Expr, ret: Ty, keys: seq<Value>, env: Env, st: Fuzz): Out<Value>
    decreases p, 2
  {
    var out := EvalPairList(p, keys, env, st);
    if out.res.Fail? then Out(Fail(out.res.fault), out.st) else Out(Build(ret, out.res.value), out.st)
  }

  function EvalPairList(p: Expr, keys: seq<Value>, env: Env, st: Fuzz): Out<seq<Value>>
    decreases p, 1, |keys|
  {
    if keys == [] then Out(Ok([]), st) else
      var params := Eval(p, env, st);
      if params.res.Fail? then Out(Fail(params.res.fault), params.st)
      else if !Args(params.res.value, 2) then Out(Fail(TypeFault), params.st)
      else
        var rest := EvalPairList(p, keys[1..], env, params.st);
        if rest.res.Fail? then rest
        else Out(Ok([VEntry(keys[0], params.res.value.items[1])] + rest.res.value), rest.st)
  }

  function EvalLiteral(id: nat, ty: Ty, lit: Literal, env: Env, st: Fuzz): Out<Value>
    decreases lit, 0
  {
    var fuzzed := st.Fuzzes(id);
    match lit
    case LBool(b) =>
      if fuzzed then Out(Ok(VBool(if st.Coin() then b else !b)), st.Advance()) else Out(Ok(VBool(b)), st)
    case LInt(k, n) =>
      if fuzzed then var (m, st') := FuzzInt(k, n, st); Out(Ok(VInt(k, m)), st') else Out(Ok(VInt(k, n)), st)
    case LDouble(x) =>
      if fuzzed then Out(Ok(VDouble(st.Peek().x)), st.Advance()) else Out(Ok(VDouble(x)), st)
    case LString(s) =>
      if fuzzed then Out(Ok(VString(st.Peek().text)), st.Advance()) else Out(Ok(VString(s)), st)
    case LPath(p) =>
      if fuzzed then var (q, st') := FuzzPath(p, st); Out(Ok(VPath(q)), st') else Out(Ok(VPath(p)), st)
    case LSignature(t) =>
      if !DBusType(t) then Out(Fail(TypeFault), st)
      else if fuzzed then var (u, st') := FuzzSignature(t, st); Out(Ok(VSignature(u)), st')
      else Out(Ok(VSignature(t)), st)
    case LArray(items) => (
      if !ty.TArray? then Out(Fail(TypeFault), st)
      else if fuzzed && !st.Coin() then Out(Ok(VArray(ty.elem, [])), st.Advance())
      else
        var out := EvalElements(id, ty.elem, items, env, if fuzzed then st.Advance() else st);
        if out.res.Fail? then Out(Fail(out.res.fault), out.st) else Out(Ok(VArray(ty.elem, out.res.value)), out.st))
    case LStruct(items) => (
      var out := EvalAll(items, env, st);
      if out.res.Fail? then Out(Fail(out.res.fault), out.st) else Out(Ok(VTuple(out.res.value)), out.st))
    case LVariant(inner) => (
      var out := Eval(inner, env, st);
      if out.res.Fail? then out
      else if out.st.Fuzzes(id) then FuzzVariant(out.res.value, out.st)
      else Out(Ok(VVariant(out.res.value)), out.st))
    case LDict(entries) => (
      if !ty.TArray? then Out(Fail(TypeFault), st)
      else if fuzzed && !st.Coin() then Out(Ok(VArray(ty.elem, [])), st.Advance())
      else
        var out := EvalEntries(id, ty.elem, entries, env, if fuzzed then st.Advance() else st);
        if out.res.Fail? then Out(Fail(out.res.fault), out.st) else Out(Ok(VArray(ty.elem, out.res.value)), out.st))
    case LVariable(scope, name) =>
      if name in env.Table(scope) && env.Table(scope)[name].value.Some?
      then Out(Ok(env.Table(scope)[name].value.value), st) else Out(Fail(BadVariable), st)
  }

  /** A fuzzed variant sometimes holds a value of another type than it should. */
  function FuzzVariant(default: Value, st: Fuzz): Out<Value> {
    var st1 := st.Advance();
    if !st.Coin() then Out(Ok(VVariant(default)), st1)
    else if TypeOf(default) == TInt(UInt32) then Out(Ok(VVariant(VString(st1.Peek().text))), st1.Advance())
    else var (n, st') := FuzzInt(UInt32, 0, st1); Out(Ok(VVariant(VInt(UInt32, n))), st')
  }

  function EvalAll(es: seq<Expr>, env: Env, st: Fuzz): Out<seq<Value>>
    decreases es, 0
  {
    if es == [] then Out(Ok([]), st) else
      var first := Eval(es[0], env, st);
      if first.res.Fail? then Out(Fail(first.res.fault), first.st) else
        var rest := EvalAll(es[1..], env, first.st);
        if rest.res.Fail? then rest else Out(Ok([first.res.value] + rest.res.value), rest.st)
  }

  /** fuzz_data_structure(): evaluate a child with its weight raised, then put the weight back. */
  function FuzzClone(e: Expr, env: Env, st: Fuzz): Out<Value>
    requires e.Data?
    decreases e, 1
  {
    var before := st.Weight(e.id);
    var out := Eval(e, env, st.SetWeight(e.id, if before > 1.0 then before else 1.0));
    Out(out.res, out.st.SetWeight(e.id, before))
  }

  /** The values one element of an array literal contributes: nothing, itself, and up to two clones. */
  function EvalElement(id: nat, e: Expr, env: Env, st: Fuzz): Out<seq<Value>>
    decreases e, 2
  {
    if st.Fuzzes(id) && st.Coin() then Out(Ok([]), st.Advance()) else
      var st0 := if st.Fuzzes(id) then st.Advance() else st;
      var out := Eval(e, env, st0);
      if out.res.Fail? then Out(Fail(out.res.fault), out.st) else
        var v := out.res.value;
        var st1 := out.st;
        var (copies, st2) :=
          if st1.Fuzzes(id) then (if st1.Coin() then [v, v] else [v], st1.Advance()) else ([v], st1);
        if st2.Fuzzes(id) && e.Data? then
          if st2.Coin() then
            var clone := FuzzClone(e, env, st2.Advance());
            if clone.res.Fail? then Out(Fail(clone.res.fault), clone.st)
            else Out(Ok(copies + [clone.res.value]), clone.st)
          else Out(Ok(copies), st2.Advance())
        else Out(Ok(copies), st2)
  }

  function EvalElements(id: nat, elem: Ty, es: seq<Expr>, env: Env, st: Fuzz): Out<seq<Value>>
    decreases es, 0
  {
    if es == [] then Out(Ok([]), st) else
      var first := EvalElement(id, es[0], env, st);
      if first.res.Fail? then first
      else if exists i | 0 <= i < |first.res.value| :: TypeOf(first.res.value[i]) != elem
      then Out(Fail(TypeFault), first.st)
      else
        var rest := EvalElements(id, elem, es[1..], env, first.st);
        if rest.res.Fail? then rest else Out(Ok(first.res.value + rest.res.value), rest.st)
  }

  /** The entries one entry of a dictionary literal contributes: nothing, itself, and a clone. */
  function EvalEntry(id: nat, entry: Entry, env: Env, st: Fuzz): Out<seq<Value>>
    decreases entry, 1
  {
    if st.Fuzzes(id) && st.Coin() then Out(Ok([]), st.Advance()) else
      var st0 := if st.Fuzzes(id) then st.Advance() else st;
      var key := Eval(entry.key, env, st0);
      if key.res.Fail? then Out(Fail(key.res.fault), key.st) else
        var val := Eval(entry.val, env, key.st);
        if val.res.Fail? then Out(Fail(val.res.fault), val.st) else
          var own := [VEntry(key.res.value, val.res.value)];
          var st1 := val.st;
          if st1.Fuzzes(id) && entry.key.Data? && entry.val.Data? then
            if st1.Coin() then
              var clone := CloneEntry(entry, val.res.value, env, st1.Advance());
              if clone.res.Fail? then Out(Fail(clone.res.fault), clone.st)
              else Out(Ok(own + [clone.res.value]), clone.st)
            else Out(Ok(own), st1.Advance())
          else Out(Ok(own), st1)
  }

  /** The key of a cloned entry is always fuzzed, its value only sometimes. */
  function CloneEntry(entry: Entry, val: Value, env: Env, st: Fuzz): Out<Value>
    requires entry.key.Data? && entry.val.Data?
    decreases entry, 0
  {
    var key := FuzzClone(entry.key, env, st);
    if key.res.Fail? then key
    else if key.st.Coin() then
      var clonedVal := FuzzClone(entry.val, env, key.st.Advance());
      if clonedVal.res.Fail? then clonedVal else Out(Ok(VEntry(key.res.value, clonedVal.res.value)), clonedVal.st)
    else Out(Ok(VEntry(key.res.value, val)), key.st.Advance())
  }

  function EvalEntries(id: nat, elem: Ty, es: seq<Entry>, env: Env, st: Fuzz): Out<seq<Value>>
    decreases es, 0
  {
    if es == [] then Out(Ok([]), st) else
      var first := EvalEntry(id, es[0], env, st);
      if first.res.Fail? then first
      else if exists i | 0 <= i < |first.res.value| :: !IsEntryOf(first.res.value[i], elem)
      then Out(Fail(TypeFault), first.st)
      else
        var rest := EvalEntries(id, elem, es[1..], env, first.st);
        if rest.res.Fail? then rest else Out(Ok(first.res.value + rest.res.value), rest.st)
  }

  /** What the builder of a dictionary takes: an entry of the right type, with a basic key. */
  predicate IsEntryOf(v: Value, elem: Ty) {
    TypeOf(v) == elem && elem.TEntry? && Basic(elem.key)
  }
}
