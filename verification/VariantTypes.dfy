/**
 GVariant types and values, as far as the simulation language can build them.

 A type string is modelled by its parse tree. The indefinite types `*`, `?` and `r` are the last three
 constructors; they occur while the type of a container literal is being inferred.
 */
module VariantTypes {

  datatype IntKind = Byte | Int16 | UInt16 | Int32 | UInt32 | Int64 | UInt64

  function MinOf(k: IntKind): int {
    match k
    case Byte => 0
    case Int16 => -0x8000
    case UInt16 => 0
    case Int32 => -0x8000_0000
    case UInt32 => 0
    case Int64 => -0x8000_0000_0000_0000
    case UInt64 => 0
  }

  function MaxOf(k: IntKind): int {
    match k
    case Byte => 0xFF
    case Int16 => 0x7FFF
    case UInt16 => 0xFFFF
    case Int32 => 0x7FFF_FFFF
    case UInt32 => 0xFFFF_FFFF
    case Int64 => 0x7FFF_FFFF_FFFF_FFFF
    case UInt64 => 0xFFFF_FFFF_FFFF_FFFF
  }

  predicate InRange(k: IntKind, n: int) {
    MinOf(k) <= n <= MaxOf(k)
  }

  datatype Ty =
    | TBool
    | TInt(kind: IntKind)
    | TDouble
    | TString
    | TPath
    | TSignature
    | TVariant
    | TArray(elem: Ty)
    | TMaybe(elem: Ty)
    | TTuple(items: seq<Ty>)
    | TEntry(key: Ty, val: Ty)
    | TAny
    | TBasic
    | TAnyTuple

  /** g_variant_type_is_definite(): no `*`, `?` or `r` anywhere in the type string. */
  predicate Definite(t: Ty) {
    match t
    case TArray(e) => Definite(e)
    case TMaybe(e) => Definite(e)
    case TTuple(items) => forall i | 0 <= i < |items| :: Definite(items[i])
    case TEntry(k, v) => Definite(k) && Definite(v)
    case TAny => false
    case TBasic => false
    case TAnyTuple => false
    case _ => true
  }

  /** g_variant_type_is_basic(), which holds of `?` too. */
  predicate Basic(t: Ty) {
    t.TBool? || t.TInt? || t.TDouble? || t.TString? || t.TPath? || t.TSignature? || t.TBasic?
  }

  predicate Numeric(t: Ty) {
    t.TInt? || t.TDouble?
  }

  /** A type a D-Bus value can have: definite, no maybe types, and only basic dictionary keys. */
  predicate DBusType(t: Ty) {
    match t
    case TArray(e) => DBusType(e)
    case TTuple(items) => forall i | 0 <= i < |items| :: DBusType(items[i])
    case TEntry(k, v) => Basic(k) && DBusType(k) && DBusType(v)
    case TMaybe(_) => false
    case TAny => false
    case TBasic => false
    case TAnyTuple => false
    case _ => true
  }

  /** Every dictionary-entry type inside has a basic key, which holds of every valid type string. */
  predicate BasicKeys(t: Ty) {
    match t
    case TArray(e) => BasicKeys(e)
    case TMaybe(e) => BasicKeys(e)
    case TTuple(items) => forall i | 0 <= i < |items| :: BasicKeys(items[i])
    case TEntry(k, v) => Basic(k) && BasicKeys(v)
    case _ => true
  }

  /** g_variant_type_is_subtype_of(), on parse trees. */
  predicate Subtype(t: Ty, s: Ty) {
    match s
    case TAny => true
    case TBasic => Basic(t)
    case TAnyTuple => t.TTuple? || t.TAnyTuple?
    case TArray(e) => t.TArray? && Subtype(t.elem, e)
    case TMaybe(e) => t.TMaybe? && Subtype(t.elem, e)
    case TTuple(items) =>
      t.TTuple? && |t.items| == |items| && forall i | 0 <= i < |items| :: Subtype(t.items[i], items[i])
    case TEntry(k, v) => t.TEntry? && Subtype(t.key, k) && Subtype(t.val, v)
    case _ => t == s
  }

  lemma {:induction false} SubtypeReflexive(t: Ty)
    ensures Subtype(t, t)
  {
    match t
    case TArray(e) => SubtypeReflexive(e);
    case TMaybe(e) => SubtypeReflexive(e);
    case TTuple(items) =>
      forall i | 0 <= i < |items| ensures Subtype(items[i], items[i]) { SubtypeReflexive(items[i]); }
    case TEntry(k, v) => SubtypeReflexive(k); SubtypeReflexive(v);
    case _ =>
  }

  /** Below a definite type there is nothing but the type itself. */
  lemma {:induction false} SubtypeOfDefinite(t: Ty, s: Ty)
    requires Definite(s)
    ensures Subtype(t, s) <==> t == s
  {
    match s
    case TArray(e) => if t.TArray? { SubtypeOfDefinite(t.elem, e); }
    case TMaybe(e) => if t.TMaybe? { SubtypeOfDefinite(t.elem, e); }
    case TTuple(items) =>
      if t.TTuple? && |t.items| == |items| {
        forall i | 0 <= i < |items| ensures Subtype(t.items[i], items[i]) <==> t.items[i] == items[i] {
          SubtypeOfDefinite(t.items[i], items[i]);
        }
        assert Subtype(t, s) ==> t.items == items;
      }
    case TEntry(k, v) => if t.TEntry? { SubtypeOfDefinite(t.key, k); SubtypeOfDefinite(t.val, v); }
    case _ =>
  }

  /** Subtyping is transitive, so a chain of checks against ever more general patterns loses nothing. */
  lemma {:induction false} SubtypeTransitive(t: Ty, u: Ty, s: Ty)
    requires Subtype(t, u) && Subtype(u, s)
    ensures Subtype(t, s)
  {
    match s
    case TArray(e) => SubtypeTransitive(t.elem, u.elem, e);
    case TMaybe(e) => SubtypeTransitive(t.elem, u.elem, e);
    case TTuple(items) =>
      forall i | 0 <= i < |items| ensures Subtype(t.items[i], items[i]) {
        SubtypeTransitive(t.items[i], u.items[i], items[i]);
      }
    case TEntry(k, v) => SubtypeTransitive(t.key, u.key, k); SubtypeTransitive(t.val, u.val, v);
    case _ =>
  }

  lemma {:induction false} DBusTypeIsDefinite(t: Ty)
    requires DBusType(t)
    ensures Definite(t) && BasicKeys(t)
  {
    match t
    case TArray(e) => DBusTypeIsDefinite(e);
    case TTuple(items) =>
      forall i | 0 <= i < |items| ensures Definite(items[i]) && BasicKeys(items[i]) { DBusTypeIsDefinite(items[i]); }
    case TEntry(k, v) => DBusTypeIsDefinite(k); DBusTypeIsDefinite(v);
    case _ =>
  }

  /** A D-Bus object path (g_variant_is_object_path()). */
  predicate IsObjectPath(s: string) {
    && |s| > 0 && s[0] == '/'
    && (|s| == 1 || s[|s| - 1] != '/')
    && (forall i | 0 <= i < |s| :: IsPathChar(s[i]))
    && (forall i | 0 < i < |s| :: !(s[i - 1] == '/' && s[i] == '/'))
  }

  predicate IsPathChar(c: char) {
    'a' <= c <= 'z' || 'A' <= c <= 'Z' || '0' <= c <= '9' || c == '_' || c == '/'
  }

  /**
   A GVariant. An array carries its element type, since an empty one has a type too; a signature is
   modelled by the type it spells.
   */
  datatype Value =
    | VBool(b: bool)
    | VInt(kind: IntKind, n: int)
    | VDouble(x: real)
    | VString(s: string)
    | VPath(path: string)
    | VSignature(ty: Ty)
    | VVariant(inner: Value)
    | VArray(elem: Ty, items: seq<Value>)
    | VTuple(items: seq<Value>)
    | VEntry(key: Value, val: Value)

  /** g_variant_get_type(). */
  function TypeOf(v: Value): Ty {
    match v
    case VBool(_) => TBool
    case VInt(k, _) => TInt(k)
    case VDouble(_) => TDouble
    case VString(_) => TString
    case VPath(_) => TPath
    case VSignature(_) => TSignature
    case VVariant(_) => TVariant
    case VArray(e, _) => TArray(e)
    case VTuple(items) => TTuple(seq(|items|, i requires 0 <= i < |items| => TypeOf(items[i])))
    case VEntry(k, v) => TEntry(TypeOf(k), TypeOf(v))
  }

  /** The values GVariant lets exist: in range, and containers holding what their type says. */
  predicate WellFormed(v: Value) {
    match v
    case VInt(k, n) => InRange(k, n)
    case VPath(p) => IsObjectPath(p)
    case VSignature(t) => DBusType(t)
    case VVariant(inner) => WellFormed(inner)
    case VArray(e, items) =>
      Definite(e) && BasicKeys(e) && forall i | 0 <= i < |items| :: WellFormed(items[i]) && TypeOf(items[i]) == e
    case VTuple(items) => forall i | 0 <= i < |items| :: WellFormed(items[i])
    case VEntry(k, v) => Basic(TypeOf(k)) && WellFormed(k) && WellFormed(v)
    case _ => true
  }

  predicate HasType(v: Value, t: Ty) {
    WellFormed(v) && TypeOf(v) == t
  }

  /** A value that exists has a definite type with basic dictionary keys. */
  lemma {:induction false} WellFormedType(v: Value)
    requires WellFormed(v)
    ensures Definite(TypeOf(v)) && BasicKeys(TypeOf(v))
  {
    match v
    case VTuple(items) =>
      forall i | 0 <= i < |items| ensures Definite(TypeOf(items[i])) && BasicKeys(TypeOf(items[i])) {
        WellFormedType(items[i]);
      }
    case VEntry(k, w) => WellFormedType(k); WellFormedType(w);
    case _ =>
  }

  /** Every type a D-Bus signature can declare has a value, so every method can be called. */
  function DefaultValue(t: Ty): (v: Value)
    requires DBusType(t)
    ensures HasType(v, t)
  {
    match t
    case TBool => VBool(false)
    case TInt(k) => VInt(k, 0)
    case TDouble => VDouble(0.0)
    case TString => VString("")
    case TPath => VPath("/")
    case TSignature => VSignature(TBool)
    case TVariant => VVariant(VBool(false))
    case TArray(e) => DBusTypeIsDefinite(e); VArray(e, [])
    case TTuple(items) =>
      var vs := seq(|items|, i requires 0 <= i < |items| => DefaultValue(items[i]));
      assert TypeOf(VTuple(vs)).items == items;
      VTuple(vs)
    case TEntry(k, w) => VEntry(DefaultValue(k), DefaultValue(w))
  }
}
