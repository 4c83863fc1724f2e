/**
 * Scan: loads the current row of a result set into the fields of a struct,
 * matching columns to fields by name through the cached field mapping and
 * substituting nullable wrappers for bool, integer, float and string fields.
 */
module RowScan {
  import opened Wrappers
  import opened GoTypes
  import opened GoStrings
  import opened FieldInfo

  datatype Error = Error(message: string)

  /** The type of a nullable wrapper: *sql.NullBool, *sql.NullInt64, ... */
  datatype WrapperType = NullBoolType | NullInt64Type | NullFloat64Type | NullStringType

  function TypeOfWrapper(w: Wrapper): WrapperType
  {
    match w
    case NullBool(_, _) => NullBoolType
    case NullInt64(_, _) => NullInt64Type
    case NullFloat64(_, _) => NullFloat64Type
    case NullString(_, _) => NullStringType
  }

  /** The wrapper Scan substitutes for a field of kind k; None means the
      field itself is handed to the row source. Unsigned fields get a
      NullInt64, exactly as signed ones. */
  function WrapperFor(k: Kind): Option<WrapperType>
  {
    match k
    case Bool => Some(NullBoolType)
    case Int => Some(NullInt64Type)
    case Uint => Some(NullInt64Type)
    case Float => Some(NullFloat64Type)
    case String => Some(NullStringType)
    case Other => None
  }

  /** A scan target: a discard sink (&sql.RawBytes{}), a nullable wrapper
      standing for a field, or the address of a field. */
  datatype Target = Discard | Nullable(field: nat, wrapper: WrapperType) | Direct(field: nat)

  /** What the row source stores into one target. */
  datatype Scanned = Dropped | IntoWrapper(w: Wrapper) | IntoField(v: Value)

  /** The row source's Scan: on failure it may already have stored a prefix
      of the targets, as database/sql's Rows.Scan does. */
  datatype FillResult = Filled(scanned: seq<Scanned>) | FillFailed(err: Error, partial: seq<Scanned>)

  /** The Rows interface: the column names, and the fill applied to the
      positional target list. */
  datatype Rows = Rows(columns: Result<seq<string>, Error>, fill: seq<Target> -> FillResult)

  datatype PanicReason = NotPointerToStruct | NilStructPointer | SetterOnWrongKind

  datatype ScanOutcome = Ok | Failed(err: Error) | Panicked(reason: PanicReason)

  /** A scanned value has the shape of the target it was stored into. */
  predicate Conforms(st: StructType, t: Target, s: Scanned)
  {
    match t
    case Discard => s.Dropped?
    case Nullable(_, wt) => s.IntoWrapper? && TypeOfWrapper(s.w) == wt
    case Direct(f) => s.IntoField? && f < |st.fields| && KindOf(s.v) == st.fields[f].kind
  }

  predicate AllConform(st: StructType, ts: seq<Target>, ss: seq<Scanned>)
  {
    |ss| <= |ts| && forall p :: 0 <= p < |ss| ==> Conforms(st, ts[p], ss[p])
  }

  /** The positional contract of Rows.Scan: a complete fill stores one value
      per target, a failed one a prefix, each of the target's shape. */
  predicate FillConforms(st: StructType, ts: seq<Target>, r: FillResult)
  {
    match r
    case Filled(ss) => |ss| == |ts| && AllConform(st, ts, ss)
    case FillFailed(_, ss) => AllConform(st, ts, ss)
  }

  ghost predicate Honours(st: StructType, fill: seq<Target> -> FillResult)
  {
    forall ts :: FillConforms(st, ts, fill(ts))
  }

  /** The column col is matched, case-insensitively, to field i. */
  predicate MapsTo(st: StructType, col: string, i: nat)
  {
    var info := BuildInfo(st.fields);
    ToLower(col) in info && info[ToLower(col)] == i
  }

  /** The target Scan builds for one column. */
  function TargetFor(st: StructType, col: string): Target
  {
    var info := BuildInfo(st.fields);
    var key := ToLower(col);
    if key !in info then Discard
    else
      var idx := info[key];
      match WrapperFor(st.fields[idx].kind)
      case Some(wt) => Nullable(idx, wt)
      case None => Direct(idx)
  }

  /** The targets Scan builds, one per column, defined over prefixes of the
      column list as Scan appends them. */
  function Targets(st: StructType, cols: seq<string>): (ts: seq<Target>)
    ensures |ts| == |cols|
    ensures forall p :: 0 <= p < |cols| ==> ts[p] == TargetFor(st, cols[p])
    decreases |cols|
  {
    if cols == [] then []
    else Targets(st, cols[..|cols| - 1]) + [TargetFor(st, cols[|cols| - 1])]
  }

  /** An entry of nullableFields: the field and the position of its wrapper. */
  datatype NullableField = NullableField(field: nat, pos: nat)

  /** The nullableFields list: the wrapper positions in order. */
  function NullablesOf(ts: seq<Target>): (ns: seq<NullableField>)
    ensures forall k :: 0 <= k < |ns| ==>
      ns[k].pos < |ts| && ts[ns[k].pos].Nullable? && ts[ns[k].pos].field == ns[k].field
    ensures forall p :: 0 <= p < |ts| && ts[p].Nullable? ==> NullableField(ts[p].field, p) in ns
    decreases |ts|
  {
    if ts == [] then []
    else
      var n := |ts| - 1;
      var prev := NullablesOf(ts[..n]);
      if ts[n].Nullable? then prev + [NullableField(ts[n].field, n)] else prev
  }

  /** The field write, if any, that a scanned position causes in one phase:
      the direct phase (the row source storing through a field's address) or
      the copy-back phase (a wrapper copied into its field). */
  function WriteOf(t: Target, s: Scanned, direct: bool): Option<(nat, Value)>
  {
    if direct && t.Direct? && s.IntoField? then Some((t.field, s.v))
    else if !direct && t.Nullable? && s.IntoWrapper? then Some((t.field, WrapperValue(s.w)))
    else None
  }

  /** The writes of one phase applied in position order. */
  function Phase(fields: seq<Value>, ts: seq<Target>, ss: seq<Scanned>, direct: bool): (r: seq<Value>)
    ensures |r| == |fields|
    decreases |ss|
  {
    if ss == [] then fields
    else
      var n := |ss| - 1;
      var prev := Phase(fields, ts, ss[..n], direct);
      if n < |ts| then ApplyWrite(prev, WriteOf(ts[n], ss[n], direct)) else prev
  }

  function ApplyWrite(fields: seq<Value>, w: Option<(nat, Value)>): (r: seq<Value>)
    ensures |r| == |fields|
  {
    match w
    case Some((f, v)) => if f < |fields| then fields[f := v] else fields
    case None => fields
  }

  datatype Written = Written(fields: seq<Value>, panicked: bool)

  /**
   * The copy-back loop over nullableFields. A wrapper is copied with the
   * setter of its kind (SetBool, SetInt, SetFloat, SetString); a setter
   * applied to a field of another kind panics, which stops the loop with
   * the writes made so far. Copy-back never changes the kind of a field.
   */
  function CopyBack(fields: seq<Value>, ns: seq<NullableField>, ss: seq<Scanned>): (r: Written)
    ensures |r.fields| == |fields|
    ensures forall f :: 0 <= f < |fields| ==> KindOf(r.fields[f]) == KindOf(fields[f])
    decreases |ns|
  {
    if ns == [] then Written(fields, false)
    else CopyStep(CopyBack(fields, ns[..|ns| - 1], ss), ns[|ns| - 1], ss)
  }

  /** One iteration of the copy-back loop. */
  function CopyStep(prev: Written, nf: NullableField, ss: seq<Scanned>): (r: Written)
    ensures |r.fields| == |prev.fields|
    ensures forall f :: 0 <= f < |prev.fields| ==> KindOf(r.fields[f]) == KindOf(prev.fields[f])
  {
    if prev.panicked then prev
    else if nf.pos < |ss| && ss[nf.pos].IntoWrapper? && nf.field < |prev.fields| then
      var w := ss[nf.pos].w;
      if KindOf(prev.fields[nf.field]) != WrapperKind(w) then Written(prev.fields, true)
      else Written(prev.fields[nf.field := WrapperValue(w)], false)
    else prev
  }

  /** A step of the copy-back loop that has not panicked yet. */
  lemma CopyStepLive(fields: seq<Value>, nf: NullableField, ss: seq<Scanned>)
    requires nf.pos < |ss| && ss[nf.pos].IntoWrapper? && nf.field < |fields|
    ensures var w := ss[nf.pos].w;
      CopyStep(Written(fields, false), nf, ss) ==
        if KindOf(fields[nf.field]) != KindOf(WrapperValue(w)) then Written(fields, true)
        else Written(fields[nf.field := WrapperValue(w)], false)
  {
    WrapperValueIsPayloadOrZero(ss[nf.pos].w);
  }

  lemma CopyBackPrefixStep(fields: seq<Value>, ns: seq<NullableField>, ss: seq<Scanned>, j: nat)
    requires j < |ns|
    ensures CopyBack(fields, ns[..j + 1], ss) == CopyStep(CopyBack(fields, ns[..j], ss), ns[j], ss)
  {
    assert ns[..j + 1][..j] == ns[..j];
  }

  /**
   * What Scan does, once the column names cols are known, to a struct of
   * type st holding fields (isNil: dest is a nil pointer): the outcome and
   * the resulting fields.
   */
  ghost function LoadEffect(st: StructType, fields: seq<Value>, isNil: bool, cols: seq<string>,
                            fill: seq<Target> -> FillResult): (ScanOutcome, seq<Value>)
  {
    var ts := Targets(st, cols);
    if isNil && exists p :: 0 <= p < |ts| && !ts[p].Discard? then (Panicked(NilStructPointer), fields)
    else
      match fill(ts)
      case FillFailed(e, partial) => (Failed(e), Phase(fields, ts, partial, true))
      case Filled(ss) =>
        var w := CopyBack(Phase(fields, ts, ss, true), NullablesOf(ts), ss);
        (if w.panicked then Panicked(SetterOnWrongKind) else Ok, w.fields)
  }

  /** What Scan does to a struct of type st holding fields when reading rows. */
  ghost function ScanEffect(st: StructType, fields: seq<Value>, isNil: bool, rows: Rows): (ScanOutcome, seq<Value>)
  {
    match rows.columns
    case Failure(e) => (Failed(e), fields)
    case Success(cols) => LoadEffect(st, fields, isNil, cols, rows.fill)
  }

  /** A struct value, whose fields Scan sets in place. */
  class Record {
    const typ: StructType
    var fields: seq<Value>

    ghost predicate Valid()
      reads this
    {
      WellTyped(typ, fields)
    }

    /** `var r T`: a struct with every field at its zero value. */
    constructor (t: StructType)
      ensures typ == t && fields == ZeroFields(t) && Valid()
    {
      typ := t;
      fields := ZeroFields(t);
    }
  }

  /** The dest argument: its dynamic type and, when it is a non-nil pointer
      to a struct, the struct it points to. */
  datatype Dest = Dest(typ: TypeDesc, rec: Record?)

  predicate PointsToStruct(typ: TypeDesc)
  {
    typ.Pointer? && typ.elem.Struct?
  }

  ghost predicate DestFits(dest: Dest)
    reads dest.rec
  {
    PointsToStruct(dest.typ) && dest.rec != null ==>
      dest.rec.typ == dest.typ.elem.st && dest.rec.Valid()
  }

  /** The direct phase stores values of the fields' own kinds. */
  lemma {:induction false} DirectPhaseWellTyped(st: StructType, fields: seq<Value>, ts: seq<Target>, ss: seq<Scanned>)
    requires WellTyped(st, fields) && AllConform(st, ts, ss)
    ensures WellTyped(st, Phase(fields, ts, ss, true))
    decreases |ss|
  {
    if ss != [] {
      var n := |ss| - 1;
      assert AllConform(st, ts, ss[..n]);
      DirectPhaseWellTyped(st, fields, ts, ss[..n]);
    }
  }

  /** Once a setter has panicked, later entries of nullableFields are not reached. */
  lemma {:induction false} CopyBackStopsAtPanic(fields: seq<Value>, ns: seq<NullableField>, ss: seq<Scanned>, k: nat)
    requires k <= |ns| && CopyBack(fields, ns[..k], ss).panicked
    ensures CopyBack(fields, ns, ss) == CopyBack(fields, ns[..k], ss)
    decreases |ns| - k
  {
    if k == |ns| {
      assert ns[..k] == ns;
    } else {
      var m := |ns| - 1;
      assert ns[..m][..k] == ns[..k];
      CopyBackStopsAtPanic(fields, ns[..m], ss, k);
      assert ns[..|ns|] == ns;
    }
  }

  lemma TargetsStep(st: StructType, cols: seq<string>, i: nat)
    requires i < |cols|
    ensures Targets(st, cols[..i + 1]) == Targets(st, cols[..i]) + [TargetFor(st, cols[i])]
  {
    assert cols[..i + 1][..i] == cols[..i];
  }

  lemma NullablesStep(ts: seq<Target>, t: Target)
    ensures NullablesOf(ts + [t]) ==
      NullablesOf(ts) + (if t.Nullable? then [NullableField(t.field, |ts|)] else [])
  {
    assert (ts + [t])[..|ts|] == ts;
  }

  /**
   * The body of Phase 1 for one column: a column no field is mapped to is
   * discarded; otherwise the field is looked up in elem, which panics when
   * dest is a nil pointer, and a wrapper is substituted for the kinds that
   * can hold NULL.
   */
  method ColumnTarget(st: StructType, fieldInfo: Info, isNil: bool, col: string)
    returns (v: Target, nilPanic: bool)
    requires fieldInfo == BuildInfo(st.fields)
    ensures nilPanic <==> isNil && !TargetFor(st, col).Discard?
    ensures !nilPanic ==> v == TargetFor(st, col)
  {
    nilPanic := false;
    var key := ToLower(col);
    if key !in fieldInfo {
      // No field is mapped to this column: its value is discarded.
      v := Discard;
      return;
    }
    var idx := fieldInfo[key];
    if isNil {
      return Discard, true;
    }
    match WrapperFor(st.fields[idx].kind) {
      case Some(wt) =>
        v := Nullable(idx, wt);
      case None =>
        v := Direct(idx);
    }
  }

  /** No target of ts is bound to a field. */
  predicate AllDiscarded(ts: seq<Target>)
  {
    forall p :: 0 <= p < |ts| ==> ts[p].Discard?
  }

  lemma AllDiscardedStep(ts: seq<Target>, t: Target)
    ensures AllDiscarded(ts + [t]) <==> AllDiscarded(ts) && t.Discard?
  {
    assert forall p :: 0 <= p < |ts| ==> (ts + [t])[p] == ts[p];
    assert (ts + [t])[|ts|] == t;
  }

  /** Every nullableFields entry of a conforming fill names a wrapper the
      fill stored and a field of the struct. */
  lemma NullablesReady(st: StructType, cols: seq<string>, ss: seq<Scanned>)
    requires |ss| == |cols| && AllConform(st, Targets(st, cols), ss)
    ensures var ns := NullablesOf(Targets(st, cols));
      forall k :: 0 <= k < |ns| ==>
        ns[k].pos < |ss| && ss[ns[k].pos].IntoWrapper? && ns[k].field < |st.fields|
  {
    var ts := Targets(st, cols);
    var ns := NullablesOf(ts);
    forall k | 0 <= k < |ns|
      ensures ns[k].pos < |ss| && ss[ns[k].pos].IntoWrapper? && ns[k].field < |st.fields|
    {
      var p := ns[k].pos;
      assert Conforms(st, ts[p], ss[p]);
      assert ts[p] == TargetFor(st, cols[p]);
    }
  }

  /**
   * Phase 1 of Scan: one target per column, in column order, and the
   * nullableFields list. When dest is a nil pointer, the first column mapped
   * to a field panics (reflect's Field on the zero Value).
   */
  method BuildTargets(st: StructType, fieldInfo: Info, isNil: bool, cols: seq<string>)
    returns (values: seq<Target>, nullableFields: seq<NullableField>, nilPanic: bool)
    requires fieldInfo == BuildInfo(st.fields)
    ensures nilPanic <==> isNil && exists p :: 0 <= p < |cols| && !Targets(st, cols)[p].Discard?
    ensures !nilPanic ==> values == Targets(st, cols) && nullableFields == NullablesOf(values)
    ensures isNil && !nilPanic ==> nullableFields == []
  {
    values, nullableFields, nilPanic := [], [], false;
    var i := 0;
    while i < |cols|
      invariant 0 <= i <= |cols|
      invariant values == Targets(st, cols[..i])
      invariant nullableFields == NullablesOf(values)
      invariant isNil ==> nullableFields == [] && AllDiscarded(values)
    {
      var v, panics := ColumnTarget(st, fieldInfo, isNil, cols[i]);
      if panics {
        assert !Targets(st, cols)[i].Discard?;
        return [], [], true;
      }
      if v.Nullable? {
        nullableFields := nullableFields + [NullableField(v.field, i)];
      }
      TargetsStep(st, cols, i);
      NullablesStep(values, v);
      AllDiscardedStep(values, v);
      values := values + [v];
      i := i + 1;
    }
    assert cols[..|cols|] == cols;
  }

  /**
   * Phase 2 of Scan: each wrapper, in nullableFields order, is copied into
   * its field: the wrapped value when Valid, the kind's zero value when
   * NULL. The setter of the wrapper's kind panics on a field of another kind.
   */
  /** The setter call of one wrapper: its value when Valid, the zero value of its kind when NULL. */
  method WrapperToValue(w: Wrapper) returns (value: Value)
    ensures w.valid ==> value == Payload(w)
    ensures !w.valid ==> value == ZeroValue(WrapperKind(w))
  {
    match w {
      case NullBool(valid, b) =>
        if valid { value := BoolV(b); } else { value := BoolV(false); }
      case NullInt64(valid, n) =>
        if valid { value := IntV(n); } else { value := IntV(0); }
      case NullFloat64(valid, f) =>
        if valid { value := FloatV(f); } else { value := FloatV(0.0); }
      case NullString(valid, s) =>
        if valid { value := StringV(s); } else { value := StringV(""); }
    }
  }

  method CopyBackInto(elem: Record, nullableFields: seq<NullableField>, ss: seq<Scanned>) returns (panicked: bool)
    requires forall k :: 0 <= k < |nullableFields| ==>
      nullableFields[k].pos < |ss| && ss[nullableFields[k].pos].IntoWrapper? &&
      nullableFields[k].field < |elem.fields|
    modifies elem
    ensures Written(elem.fields, panicked) == CopyBack(old(elem.fields), nullableFields, ss)
  {
    var j := 0;
    while j < |nullableFields|
      invariant 0 <= j <= |nullableFields|
      invariant |elem.fields| == |old(elem.fields)|
      invariant CopyBack(old(elem.fields), nullableFields[..j], ss) == Written(elem.fields, false)
    {
      CopyBackPrefixStep(old(elem.fields), nullableFields, ss, j);
      var nf := nullableFields[j];
      var value := WrapperToValue(ss[nf.pos].w);
      WrapperValueIsPayloadOrZero(ss[nf.pos].w);
      CopyStepLive(elem.fields, nf, ss);
      if KindOf(elem.fields[nf.field]) != KindOf(value) {
        CopyBackStopsAtPanic(old(elem.fields), nullableFields, ss, j + 1);
        return true;
      }
      elem.fields := elem.fields[nf.field := value];
      j := j + 1;
    }
    assert nullableFields[..|nullableFields|] == nullableFields;
    return false;
  }

  /**
   * The body of Scan once the column names are known: build the targets,
   * let the row source fill them, then copy the wrappers back.
   */
  method LoadRow(st: StructType, fieldInfo: Info, elem: Record?, cols: seq<string>,
                 fill: seq<Target> -> FillResult) returns (outcome: ScanOutcome)
    requires fieldInfo == BuildInfo(st.fields) && Honours(st, fill)
    requires elem != null ==> elem.typ == st && elem.Valid()
    modifies elem
    ensures elem == null ==> outcome == LoadEffect(st, [], true, cols, fill).0
    ensures elem != null ==>
      (outcome, elem.fields) == LoadEffect(st, old(elem.fields), false, cols, fill) && elem.Valid()
  {
    var values, nullableFields, nilPanic := BuildTargets(st, fieldInfo, elem == null, cols);
    if nilPanic {
      return Panicked(NilStructPointer);
    }

    var fr := fill(values);
    assert FillConforms(st, values, fr);
    if elem == null {
      return if fr.FillFailed? then Failed(fr.err) else Ok;
    }
    var delivered := if fr.Filled? then fr.scanned else fr.partial;
    DirectPhaseWellTyped(st, elem.fields, values, delivered);
    elem.fields := Phase(elem.fields, values, delivered, true);
    if fr.FillFailed? {
      return Failed(fr.err);
    }

    NullablesReady(st, cols, fr.scanned);
    var panicked := CopyBackInto(elem, nullableFields, fr.scanned);
    outcome := if panicked then Panicked(SetterOnWrongKind) else Ok;
  }

  /**
   * Scan(dest, rows). A dest that is not a pointer to a struct panics
   * before anything else. Otherwise the field mapping is resolved through
   * the cache, the column names are fetched (an error is returned as is),
   * one target per column is built, the row source fills them (an error is
   * returned as is, before any copy-back), and every wrapper is copied back
   * into its field, NULL becoming the zero value of the field's kind.
   */
  method Scan(cache: FieldInfoCache, dest: Dest, rows: Rows) returns (outcome: ScanOutcome)
    requires cache.Valid() && DestFits(dest)
    requires PointsToStruct(dest.typ) ==> Honours(dest.typ.elem.st, rows.fill)
    modifies cache, dest.rec
    ensures cache.Valid()
    ensures !PointsToStruct(dest.typ) ==>
      outcome == Panicked(NotPointerToStruct) && cache.entries == old(cache.entries) &&
      (dest.rec != null ==> dest.rec.fields == old(dest.rec.fields))
    ensures PointsToStruct(dest.typ) ==>
      cache.entries == old(cache.entries)[dest.typ.elem.st := BuildInfo(dest.typ.elem.st.fields)]
    ensures PointsToStruct(dest.typ) && dest.rec == null ==>
      outcome == ScanEffect(dest.typ.elem.st, [], true, rows).0
    ensures PointsToStruct(dest.typ) && dest.rec != null ==>
      (outcome, dest.rec.fields) == ScanEffect(dest.typ.elem.st, old(dest.rec.fields), false, rows) &&
      dest.rec.Valid()
  {
    if !PointsToStruct(dest.typ) {
      return Panicked(NotPointerToStruct);
    }
    var st := dest.typ.elem.st;
    var fieldInfo := cache.GetFieldInfo(st);
    var elem := dest.rec;

    if rows.columns.Failure? {
      return Failed(rows.columns.error);
    }
    outcome := LoadRow(st, fieldInfo, elem, rows.columns.value, rows.fill);
  }

  // ---------------------------------------------------------------------
  // Properties of Scan

  /** Each target is what the column promises: a discard sink exactly when
      the lower-cased column name is not mapped, otherwise a reference to
      the mapped field, through a wrapper exactly when the field's kind is
      bool, an integer, a float or string. */
  lemma TargetsMeaning(st: StructType, cols: seq<string>, p: nat)
    requires p < |cols|
    ensures var t := Targets(st, cols)[p];
            var info := BuildInfo(st.fields);
            var key := ToLower(cols[p]);
            && (t.Discard? <==> key !in info)
            && (!t.Discard? ==> t.field == info[key] && t.field < |st.fields| &&
                                Included(st.fields[t.field]) && ColumnName(st.fields[t.field]) == key)
            && (t.Nullable? <==> key in info && st.fields[info[key]].kind != Other)
            && (t.Nullable? ==> t.wrapper == WrapperFor(st.fields[t.field].kind).value)
  {
    BuildInfoSound(st.fields);
  }

  /** Position p of a phase writes field i. */
  predicate WritesTo(ts: seq<Target>, ss: seq<Scanned>, direct: bool, p: nat, i: nat)
  {
    p < |ts| && p < |ss| && WriteOf(ts[p], ss[p], direct).Some? && WriteOf(ts[p], ss[p], direct).value.0 == i
  }

  /** One step of a phase: the last position's write, if any, lands on top. */
  lemma PhaseStep(fields: seq<Value>, ts: seq<Target>, ss: seq<Scanned>, direct: bool, i: nat)
    requires i < |fields| && ss != []
    ensures var n := |ss| - 1;
      Phase(fields, ts, ss, direct)[i] ==
        if WritesTo(ts, ss, direct, n, i) then WriteOf(ts[n], ss[n], direct).value.1
        else Phase(fields, ts, ss[..n], direct)[i]
  {
  }

  /** In a phase a field nobody writes keeps its value. */
  lemma {:induction false} PhaseUntouched(fields: seq<Value>, ts: seq<Target>, ss: seq<Scanned>, direct: bool, i: nat)
    requires i < |fields|
    requires forall p :: 0 <= p < |ss| ==> !WritesTo(ts, ss, direct, p, i)
    ensures Phase(fields, ts, ss, direct)[i] == fields[i]
    decreases |ss|
  {
    if ss != [] {
      var n := |ss| - 1;
      PhaseStep(fields, ts, ss, direct, i);
      assert !WritesTo(ts, ss, direct, n, i);
      forall p | 0 <= p < n
        ensures !WritesTo(ts, ss[..n], direct, p, i)
      {
        assert !WritesTo(ts, ss, direct, p, i);
      }
      PhaseUntouched(fields, ts, ss[..n], direct, i);
    }
  }

  /** In a phase the last write to a field wins. */
  lemma {:induction false} PhaseLastWrite(fields: seq<Value>, ts: seq<Target>, ss: seq<Scanned>, direct: bool,
                                          i: nat, p: nat)
    requires i < |fields| && p < |ss| && WritesTo(ts, ss, direct, p, i)
    requires forall q :: p < q < |ss| ==> !WritesTo(ts, ss, direct, q, i)
    ensures Phase(fields, ts, ss, direct)[i] == WriteOf(ts[p], ss[p], direct).value.1
    decreases |ss|
  {
    var n := |ss| - 1;
    PhaseStep(fields, ts, ss, direct, i);
    if p < n {
      assert !WritesTo(ts, ss, direct, n, i);
      assert WritesTo(ts, ss[..n], direct, p, i);
      forall q | p < q < n
        ensures !WritesTo(ts, ss[..n], direct, q, i)
      {
        assert !WritesTo(ts, ss, direct, q, i);
      }
      PhaseLastWrite(fields, ts, ss[..n], direct, i, p);
    }
  }

  lemma NullablesPrefixStep(ts: seq<Target>, n: nat)
    requires 0 < n <= |ts|
    ensures NullablesOf(ts[..n]) == NullablesOf(ts[..n - 1]) +
      (if ts[n - 1].Nullable? then [NullableField(ts[n - 1].field, n - 1)] else [])
  {
    assert ts[..n] == ts[..n - 1] + [ts[n - 1]];
    NullablesStep(ts[..n - 1], ts[n - 1]);
  }

  lemma PhasePrefixStep(fields: seq<Value>, ts: seq<Target>, ss: seq<Scanned>, direct: bool, n: nat)
    requires 0 < n <= |ts| && n <= |ss|
    ensures Phase(fields, ts, ss[..n], direct) ==
      ApplyWrite(Phase(fields, ts, ss[..n - 1], direct), WriteOf(ts[n - 1], ss[n - 1], direct))
  {
    assert ss[..n][..n - 1] == ss[..n - 1];
  }

  /** One more nullable entry in the copy-back loop performs that
      position's copy-back write, unless it panics. */
  lemma CopyBackApply(fields: seq<Value>, ns: seq<NullableField>, ss: seq<Scanned>, t: Target, m: nat)
    requires m < |ss|
    ensures var prev := CopyBack(fields, ns, ss);
            var next := CopyBack(fields, ns + (if t.Nullable? then [NullableField(t.field, m)] else []), ss);
            !next.panicked ==> !prev.panicked && next.fields == ApplyWrite(prev.fields, WriteOf(t, ss[m], false))
  {
    if t.Nullable? {
      assert (ns + [NullableField(t.field, m)])[..|ns|] == ns;
    } else {
      assert ns + [] == ns;
    }
  }

  /** Without a panic, the copy-back loop over nullableFields performs the
      copy-back phase in position order. */
  lemma {:induction false} CopyBackIsPhase(fields: seq<Value>, ts: seq<Target>, ss: seq<Scanned>, n: nat)
    requires n <= |ts| && n <= |ss|
    ensures var w := CopyBack(fields, NullablesOf(ts[..n]), ss);
            !w.panicked ==> w.fields == Phase(fields, ts, ss[..n], false)
    decreases n
  {
    if n > 0 {
      var m := n - 1;
      CopyBackIsPhase(fields, ts, ss, m);
      NullablesPrefixStep(ts, n);
      PhasePrefixStep(fields, ts, ss, false, n);
      CopyBackApply(fields, NullablesOf(ts[..m]), ss, ts[m], m);
    }
  }

  /** Which of the two phases writes field i at position p. */
  lemma WritesToMapped(st: StructType, cols: seq<string>, ss: seq<Scanned>, p: nat, i: nat)
    requires AllConform(st, Targets(st, cols), ss) && p < |ss| && i < |st.fields|
    ensures WritesTo(Targets(st, cols), ss, false, p, i) <==>
      MapsTo(st, cols[p], i) && WrapperFor(st.fields[i].kind).Some?
    ensures WritesTo(Targets(st, cols), ss, true, p, i) <==>
      MapsTo(st, cols[p], i) && WrapperFor(st.fields[i].kind).None?
  {
    TargetsMeaning(st, cols, p);
    assert Conforms(st, Targets(st, cols)[p], ss[p]);
  }

  /** The direct phase writes only values of the fields' own kinds. */
  lemma LoadEffectWellTyped(st: StructType, fields: seq<Value>, cols: seq<string>, fill: seq<Target> -> FillResult)
    requires WellTyped(st, fields)
    requires FillConforms(st, Targets(st, cols), fill(Targets(st, cols)))
    ensures WellTyped(st, LoadEffect(st, fields, false, cols, fill).1)
  {
    var ts := Targets(st, cols);
    match fill(ts)
    case FillFailed(_, partial) =>
      DirectPhaseWellTyped(st, fields, ts, partial);
    case Filled(ss) =>
      DirectPhaseWellTyped(st, fields, ts, ss);
  }

  /** The fields after both phases: the row source's direct stores, then the copy-back. */
  function Settled(fields: seq<Value>, ts: seq<Target>, ss: seq<Scanned>): (r: seq<Value>)
    ensures |r| == |fields|
  {
    Phase(Phase(fields, ts, ss, true), ts, ss, false)
  }

  /** A successful load is the two phases, kind-preserving. */
  lemma LoadEffectSettles(st: StructType, fields: seq<Value>, cols: seq<string>, fill: seq<Target> -> FillResult)
    requires WellTyped(st, fields)
    requires FillConforms(st, Targets(st, cols), fill(Targets(st, cols)))
    requires fill(Targets(st, cols)).Filled?
    requires LoadEffect(st, fields, false, cols, fill).0 == Ok
    ensures LoadEffect(st, fields, false, cols, fill).1 == Settled(fields, Targets(st, cols), fill(Targets(st, cols)).scanned)
    ensures WellTyped(st, LoadEffect(st, fields, false, cols, fill).1)
  {
    var ts := Targets(st, cols);
    var ss := fill(ts).scanned;
    CopyBackIsPhase(Phase(fields, ts, ss, true), ts, ss, |ts|);
    assert ts[..|ts|] == ts;
    assert ss[..|ss|] == ss;
    LoadEffectWellTyped(st, fields, cols, fill);
  }

  /** A field no column maps to keeps its value through both phases. */
  lemma SettledUnmapped(st: StructType, fields: seq<Value>, cols: seq<string>, ss: seq<Scanned>, i: nat)
    requires i < |fields| && i < |st.fields| && |ss| == |cols| && AllConform(st, Targets(st, cols), ss)
    requires forall p :: 0 <= p < |cols| ==> !MapsTo(st, cols[p], i)
    ensures Settled(fields, Targets(st, cols), ss)[i] == fields[i]
  {
    var ts := Targets(st, cols);
    forall p | 0 <= p < |ss|
      ensures !WritesTo(ts, ss, true, p, i) && !WritesTo(ts, ss, false, p, i)
    {
      WritesToMapped(st, cols, ss, p, i);
    }
    PhaseUntouched(fields, ts, ss, true, i);
    PhaseUntouched(Phase(fields, ts, ss, true), ts, ss, false, i);
  }

  /** A field of a wrapped kind ends with the value of the wrapper of the last column mapped to it. */
  lemma SettledWrapped(st: StructType, fields: seq<Value>, cols: seq<string>, ss: seq<Scanned>, i: nat, p: nat)
    requires i < |fields| && i < |st.fields| && |ss| == |cols| && AllConform(st, Targets(st, cols), ss)
    requires WrapperFor(st.fields[i].kind).Some?
    requires p < |cols| && MapsTo(st, cols[p], i)
    requires forall q :: p < q < |cols| ==> !MapsTo(st, cols[q], i)
    ensures ss[p].IntoWrapper? && Settled(fields, Targets(st, cols), ss)[i] == WrapperValue(ss[p].w)
  {
    var ts := Targets(st, cols);
    WritesToMapped(st, cols, ss, p, i);
    forall q | p < q < |ss|
      ensures !WritesTo(ts, ss, false, q, i)
    {
      WritesToMapped(st, cols, ss, q, i);
    }
    PhaseLastWrite(Phase(fields, ts, ss, true), ts, ss, false, i, p);
  }

  /** A field passed by address ends with what the last column mapped to it stored. */
  lemma SettledDirect(st: StructType, fields: seq<Value>, cols: seq<string>, ss: seq<Scanned>, i: nat, p: nat)
    requires i < |fields| && i < |st.fields| && |ss| == |cols| && AllConform(st, Targets(st, cols), ss)
    requires WrapperFor(st.fields[i].kind).None?
    requires p < |cols| && MapsTo(st, cols[p], i)
    requires forall q :: p < q < |cols| ==> !MapsTo(st, cols[q], i)
    ensures ss[p].IntoField? && Settled(fields, Targets(st, cols), ss)[i] == ss[p].v
  {
    var ts := Targets(st, cols);
    WritesToMapped(st, cols, ss, p, i);
    forall q | 0 <= q < |ss|
      ensures !WritesTo(ts, ss, false, q, i)
      ensures p < q ==> !WritesTo(ts, ss, true, q, i)
    {
      WritesToMapped(st, cols, ss, q, i);
    }
    PhaseLastWrite(fields, ts, ss, true, i, p);
    PhaseUntouched(Phase(fields, ts, ss, true), ts, ss, false, i);
  }

  /**
   * After a successful Scan, a field that no column maps to keeps its
   * value, and a field that columns map to holds what the last of those
   * columns delivered: through a wrapper, the wrapped value when it is
   * Valid and the zero value of the field's kind when it is NULL; through
   * its address, the stored value.
   */
  lemma ScanFieldOutcome(st: StructType, fields: seq<Value>, cols: seq<string>,
                         fill: seq<Target> -> FillResult, i: nat)
    requires WellTyped(st, fields) && i < |fields|
    requires FillConforms(st, Targets(st, cols), fill(Targets(st, cols)))
    requires fill(Targets(st, cols)).Filled?
    requires LoadEffect(st, fields, false, cols, fill).0 == Ok
    ensures var after := LoadEffect(st, fields, false, cols, fill).1;
      (forall p :: 0 <= p < |cols| ==> !MapsTo(st, cols[p], i)) ==> after[i] == fields[i]
    ensures var after := LoadEffect(st, fields, false, cols, fill).1;
            var ss := fill(Targets(st, cols)).scanned;
      forall p :: 0 <= p < |cols| && MapsTo(st, cols[p], i) &&
                  (forall q :: p < q < |cols| ==> !MapsTo(st, cols[q], i)) ==>
        if WrapperFor(st.fields[i].kind).Some? then
          && ss[p].IntoWrapper?
          && (ss[p].w.valid ==> after[i] == Payload(ss[p].w))
          && (!ss[p].w.valid ==> after[i] == ZeroValue(st.fields[i].kind))
        else
          ss[p].IntoField? && after[i] == ss[p].v
  {
    var ts := Targets(st, cols);
    var ss := fill(ts).scanned;
    var after := LoadEffect(st, fields, false, cols, fill).1;
    LoadEffectSettles(st, fields, cols, fill);
    if forall p :: 0 <= p < |cols| ==> !MapsTo(st, cols[p], i) {
      SettledUnmapped(st, fields, cols, ss, i);
    }
    forall p | 0 <= p < |cols| && MapsTo(st, cols[p], i) &&
               (forall q :: p < q < |cols| ==> !MapsTo(st, cols[q], i))
      ensures if WrapperFor(st.fields[i].kind).Some? then
          && ss[p].IntoWrapper?
          && (ss[p].w.valid ==> after[i] == Payload(ss[p].w))
          && (!ss[p].w.valid ==> after[i] == ZeroValue(st.fields[i].kind))
        else
          ss[p].IntoField? && after[i] == ss[p].v
    {
      if WrapperFor(st.fields[i].kind).Some? {
        SettledWrapped(st, fields, cols, ss, i, p);
        WrapperValueIsPayloadOrZero(ss[p].w);
      } else {
        SettledDirect(st, fields, cols, ss, i, p);
      }
    }
  }

  /**
   * When the row source's fill fails, Scan returns its error unchanged and
   * copies no wrapper back: every field of a wrapped kind keeps its value.
   * Fields passed by address may hold what the fill stored before failing.
   */
  lemma FillFailureSkipsCopyBack(st: StructType, fields: seq<Value>, cols: seq<string>,
                                 fill: seq<Target> -> FillResult, i: nat)
    requires WellTyped(st, fields) && i < |fields|
    requires FillConforms(st, Targets(st, cols), fill(Targets(st, cols)))
    requires fill(Targets(st, cols)).FillFailed?
    requires WrapperFor(st.fields[i].kind).Some?
    ensures LoadEffect(st, fields, false, cols, fill).0 == Failed(fill(Targets(st, cols)).err)
    ensures LoadEffect(st, fields, false, cols, fill).1[i] == fields[i]
  {
    var ts := Targets(st, cols);
    var partial := fill(ts).partial;
    forall p | 0 <= p < |partial|
      ensures !WritesTo(ts, partial, true, p, i)
    {
      WritesToMapped(st, cols, partial, p, i);
    }
    PhaseUntouched(fields, ts, partial, true, i);
  }

  /** The column col is matched to a field of unsigned integer kind. */
  predicate MapsToUnsigned(st: StructType, col: string)
  {
    var info := BuildInfo(st.fields);
    var key := ToLower(col);
    key in info && st.fields[info[key]].kind == Uint
  }

  /** The copy-back entry nf would call the setter of its wrapper on a field of another kind. */
  predicate Mismatch(fields: seq<Value>, nf: NullableField, ss: seq<Scanned>)
  {
    nf.pos < |ss| && ss[nf.pos].IntoWrapper? && nf.field < |fields| &&
    WrapperKind(ss[nf.pos].w) != KindOf(fields[nf.field])
  }

  /** The copy-back loop panics exactly when one of its entries mismatches. */
  lemma {:induction false} CopyBackPanicIff(fields: seq<Value>, ns: seq<NullableField>, ss: seq<Scanned>)
    ensures CopyBack(fields, ns, ss).panicked <==> exists k :: 0 <= k < |ns| && Mismatch(fields, ns[k], ss)
    decreases |ns|
  {
    if ns != [] {
      var m := |ns| - 1;
      var prev := CopyBack(fields, ns[..m], ss);
      CopyBackPanicIff(fields, ns[..m], ss);
      assert ns[..m + 1] == ns;
      CopyBackPrefixStep(fields, ns, ss, m);
      assert forall k :: 0 <= k < m ==> ns[..m][k] == ns[k];
      if !prev.panicked && ns[m].field < |fields| {
        assert KindOf(prev.fields[ns[m].field]) == KindOf(fields[ns[m].field]);
      }
    }
  }

  /** A wrapper of the type chosen for kind k has a setter for k, except
      for unsigned integers, which get an NullInt64 whose setter is SetInt. */
  lemma WrapperKindFor(k: Kind, w: Wrapper)
    requires WrapperFor(k).Some? && TypeOfWrapper(w) == WrapperFor(k).value
    ensures WrapperKind(w) == k <==> k != Uint
  {
  }

  lemma MismatchMeansUnsigned(st: StructType, d: seq<Value>, cols: seq<string>, ss: seq<Scanned>, k: nat)
    requires WellTyped(st, d) && AllConform(st, Targets(st, cols), ss)
    requires k < |NullablesOf(Targets(st, cols))| && Mismatch(d, NullablesOf(Targets(st, cols))[k], ss)
    ensures var pos := NullablesOf(Targets(st, cols))[k].pos;
      pos < |cols| && MapsToUnsigned(st, cols[pos])
  {
    var ts := Targets(st, cols);
    var nf := NullablesOf(ts)[k];
    TargetsMeaning(st, cols, nf.pos);
    assert Conforms(st, ts[nf.pos], ss[nf.pos]);
    WrapperKindFor(st.fields[nf.field].kind, ss[nf.pos].w);
  }

  lemma UnsignedMeansMismatch(st: StructType, d: seq<Value>, cols: seq<string>, ss: seq<Scanned>, p: nat)
    requires WellTyped(st, d) && |ss| == |cols| && AllConform(st, Targets(st, cols), ss)
    requires p < |cols| && MapsToUnsigned(st, cols[p])
    ensures exists k :: 0 <= k < |NullablesOf(Targets(st, cols))| && Mismatch(d, NullablesOf(Targets(st, cols))[k], ss)
  {
    var ts := Targets(st, cols);
    var ns := NullablesOf(ts);
    TargetsMeaning(st, cols, p);
    var f := ts[p].field;
    assert NullableField(f, p) in ns;
    var k :| 0 <= k < |ns| && ns[k] == NullableField(f, p);
    assert Conforms(st, ts[p], ss[p]);
    WrapperKindFor(Uint, ss[p].w);
    assert Mismatch(d, ns[k], ss);
  }

  /**
   * With a complete fill, Scan panics exactly when some column is matched
   * to a field of unsigned integer kind (there is no setter for it), and
   * otherwise succeeds.
   */
  lemma UnsignedFieldPanics(st: StructType, fields: seq<Value>, cols: seq<string>, fill: seq<Target> -> FillResult)
    requires WellTyped(st, fields)
    requires FillConforms(st, Targets(st, cols), fill(Targets(st, cols)))
    requires fill(Targets(st, cols)).Filled?
    ensures LoadEffect(st, fields, false, cols, fill).0 == Panicked(SetterOnWrongKind) <==>
      exists p :: 0 <= p < |cols| && MapsToUnsigned(st, cols[p])
    ensures LoadEffect(st, fields, false, cols, fill).0 in {Ok, Panicked(SetterOnWrongKind)}
  {
    var ts := Targets(st, cols);
    var ss := fill(ts).scanned;
    var d := Phase(fields, ts, ss, true);
    var ns := NullablesOf(ts);
    DirectPhaseWellTyped(st, fields, ts, ss);
    CopyBackPanicIff(d, ns, ss);
    if exists k :: 0 <= k < |ns| && Mismatch(d, ns[k], ss) {
      var k :| 0 <= k < |ns| && Mismatch(d, ns[k], ss);
      MismatchMeansUnsigned(st, d, cols, ss, k);
    }
    if exists p :: 0 <= p < |cols| && MapsToUnsigned(st, cols[p]) {
      var p :| 0 <= p < |cols| && MapsToUnsigned(st, cols[p]);
      UnsignedMeansMismatch(st, d, cols, ss, p);
    }
  }

  /** A failure to fetch the column names is returned unchanged and no field changes. */
  lemma ColumnsFailurePassesThrough(st: StructType, fields: seq<Value>, isNil: bool, rows: Rows)
    requires rows.columns.Failure?
    ensures ScanEffect(st, fields, isNil, rows) == (Failed(rows.columns.error), fields)
  {
  }
}
