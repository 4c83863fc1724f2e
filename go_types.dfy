/**
 * The part of Go's type system that sqlstruct looks at through reflection:
 * the kind of a struct field, the value stored in it, the descriptor of each
 * field of a struct type, and the database/sql nullable wrappers.
 */
module GoTypes {

  /** reflect.Kind, reduced to the classes Scan and NullValue distinguish.
      Int stands for int, int8, ..., int64; Uint for uint, ..., uint64;
      Float for float32 and float64; Other for every remaining kind. */
  datatype Kind = Bool | Int | Uint | Float | String | Other

  /** The content of one struct field. Floats are opaque reals with the
      distinguished zero 0.0; Other kinds carry an opaque token. */
  datatype Value =
    | BoolV(b: bool)
    | IntV(i: int)
    | UintV(u: nat)
    | FloatV(f: real)
    | StringV(s: string)
    | OtherV(token: int)

  function KindOf(v: Value): Kind
  {
    match v
    case BoolV(_) => Bool
    case IntV(_) => Int
    case UintV(_) => Uint
    case FloatV(_) => Float
    case StringV(_) => String
    case OtherV(_) => Other
  }

  /** The zero value Go gives a field of each kind. */
  function ZeroValue(k: Kind): (z: Value)
    ensures KindOf(z) == k
  {
    match k
    case Bool => BoolV(false)
    case Int => IntV(0)
    case Uint => UintV(0)
    case Float => FloatV(0.0)
    case String => StringV("")
    case Other => OtherV(0)
  }

  /** sql.NullBool, sql.NullInt64, sql.NullFloat64 and sql.NullString. */
  datatype Wrapper =
    | NullBool(valid: bool, b: bool)
    | NullInt64(valid: bool, i: int)
    | NullFloat64(valid: bool, f: real)
    | NullString(valid: bool, s: string)

  /** The value Scan's copy-back writes into a field from a wrapper: the
      wrapped value when Valid, otherwise the zero value of the kind. */
  function WrapperValue(w: Wrapper): Value
  {
    match w
    case NullBool(valid, b) => BoolV(if valid then b else false)
    case NullInt64(valid, i) => IntV(if valid then i else 0)
    case NullFloat64(valid, f) => FloatV(if valid then f else 0.0)
    case NullString(valid, s) => StringV(if valid then s else "")
  }

  /** The value a Valid wrapper carries. */
  function Payload(w: Wrapper): Value
  {
    match w
    case NullBool(_, b) => BoolV(b)
    case NullInt64(_, i) => IntV(i)
    case NullFloat64(_, f) => FloatV(f)
    case NullString(_, s) => StringV(s)
  }

  /** The kind of field each wrapper is copied back into without a panic. */
  function WrapperKind(w: Wrapper): Kind
  {
    match w
    case NullBool(_, _) => Bool
    case NullInt64(_, _) => Int
    case NullFloat64(_, _) => Float
    case NullString(_, _) => String
  }

  /** Null transparency: a wrapper's copy-back value is its payload when it
      is Valid and the zero value of its kind when it holds SQL NULL. */
  lemma WrapperValueIsPayloadOrZero(w: Wrapper)
    ensures w.valid ==> WrapperValue(w) == Payload(w)
    ensures !w.valid ==> WrapperValue(w) == ZeroValue(WrapperKind(w))
    ensures KindOf(WrapperValue(w)) == WrapperKind(w)
  {
  }

  /** One field of a struct type as reflect.StructField describes it:
      exported means PkgPath is empty, tag is the value of the "sql" key
      of the field's tag ("" when the key is absent). */
  datatype FieldDesc = FieldDesc(name: string, exported: bool, anonymous: bool, tag: string, kind: Kind)

  /** A struct type; name tells apart struct types with the same fields. */
  datatype StructType = StructType(name: string, fields: seq<FieldDesc>)

  /** The dynamic type of an interface{} argument, as far as sqlstruct inspects it. */
  datatype TypeDesc = Struct(st: StructType) | Pointer(elem: TypeDesc) | NonStruct(name: string)

  /** Field values that fit the field kinds of a struct type. */
  ghost predicate WellTyped(st: StructType, fields: seq<Value>)
  {
    |fields| == |st.fields| &&
    forall i :: 0 <= i < |fields| ==> KindOf(fields[i]) == st.fields[i].kind
  }

  /** The zero value of a struct type: every field at its kind's zero. */
  function ZeroFields(st: StructType): (fs: seq<Value>)
    ensures WellTyped(st, fs)
  {
    seq(|st.fields|, i requires 0 <= i < |st.fields| => ZeroValue(st.fields[i].kind))
  }
}
