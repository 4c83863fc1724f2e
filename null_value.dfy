// NullValue: the helper that turns a Go zero value into an SQL NULL
// before it is handed to the database, and what Scan makes of it when it
// is read back into a field of the same kind.

module NullCoercion {
  import opened GoTypes
  import opened GoStrings
  import opened Wrappers

  /**
   * What NullValue returns: the value itself, an invalid (NULL) wrapper,
   * or nothing, because it panics: reflect's Int on an unsigned kind, or
   * the type assertion value.(string) on a string of a defined type such
   * as `type Status string`.
   */
  datatype Coerced = AsIs(value: Value) | AsNull(w: Wrapper) | PanicsOnUnsigned | PanicsOnAssertion

  /** The value is one NullValue replaces by NULL: integer 0, float 0, or a
      string that is empty once surrounding white space is trimmed. */
  predicate IsBlank(v: Value)
  {
    v == IntV(0) || v == FloatV(0.0) || (v.StringV? && AllSpace(v.s))
  }

  /**
   * NullValue on an interface value whose dynamic value is v; predeclared
   * says whether its dynamic type is the predeclared type of its kind
   * (string rather than a defined string type). Only the string case
   * depends on it: Int and Float accept defined types of their kinds.
   */
  function NullValue(v: Value, predeclared: bool): (r: Coerced)
    ensures r.PanicsOnUnsigned? <==> v.UintV?
    ensures r.PanicsOnAssertion? <==> v.StringV? && !predeclared
    ensures r.AsNull? <==> IsBlank(v) && (v.StringV? ==> predeclared)
    ensures r.AsIs? ==> r.value == v
    ensures r.AsNull? ==> !r.w.valid && WrapperKind(r.w) == KindOf(v) && WrapperValue(r.w) == ZeroValue(KindOf(v))
  {
    match v
    case IntV(i) => if i == 0 then AsNull(NullInt64(false, 0)) else AsIs(v)
    case UintV(_) => PanicsOnUnsigned
    case FloatV(f) => if f == 0.0 then AsNull(NullFloat64(false, 0.0)) else AsIs(v)
    case StringV(s) =>
      if !predeclared then PanicsOnAssertion
      else
        TrimSpaceEmpty(s);
        if TrimSpace(s) == "" then AsNull(NullString(false, "")) else AsIs(v)
    case BoolV(_) => AsIs(v)
    case OtherV(_) => AsIs(v)
  }

  /** The value Scan stores into a field of the value's kind when the
      column holds what NullValue produced: a NULL becomes the zero value
      of the wrapper's kind (the copy-back of an invalid wrapper). */
  function ReadBack(c: Coerced): (r: Option<Value>)
  {
    match c
    case AsIs(v) => Some(v)
    case AsNull(w) => Some(WrapperValue(w))
    case PanicsOnUnsigned => None
    case PanicsOnAssertion => None
  }

  /**
   * Writing NullValue(v) and scanning it back yields v, except that a
   * blank string comes back as the empty string; unsigned values and
   * strings of a defined type never get that far.
   */
  lemma NullValueRoundTrip(v: Value, predeclared: bool)
    ensures v.UintV? || (v.StringV? && !predeclared) ==> ReadBack(NullValue(v, predeclared)).None?
    ensures !v.UintV? && (v.StringV? ==> predeclared) ==>
              ReadBack(NullValue(v, predeclared)) == Some(if v.StringV? && AllSpace(v.s) then StringV("") else v)
  {
  }
}
