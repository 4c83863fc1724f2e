# sqlstruct in Dafny

A verified model of the Go package `sqlstruct`. The package maps the
columns of an SQL result set onto the fields of a Go struct by name. It
has five pieces:

- `snakeCasedName` derives a column name from a field name.
- `getFieldInfo` builds, and caches per struct type in `finfos`, the
  mapping from column name to field index.
- `Columns` lists the mapped column names, sorted and joined with `", "`.
- `Scan` loads one row into a struct in two phases.
  - First it builds one scan target per column: a discard sink, a
    nullable wrapper (`sql.NullBool`, `NullInt64`, `NullFloat64`,
    `NullString`), or the address of a field.
  - It lets the row source fill the targets.
  - Then it copies every wrapper back into its field. A NULL writes the
    zero value of the field's kind.
- `NullValue` turns zero numbers and blank strings into an invalid (NULL)
  wrapper.

Reflection is replaced by explicit data:

- A struct type is a sequence of field descriptors (name, exported,
  anonymous, `sql` tag, kind).
- A struct value is a sequence of field values.
- A `Rows` is its column list (or an error) plus an abstract fill function
  from the target list to what the row source stores.
  - The fill is bound only by the positional contract of `Rows.Scan`
    (`RowScan.Honours`): each stored value has the shape of its target,
    and on failure a prefix may already be stored.
- Go panics are outcome values, so that they can be stated and proved:
  - `ScanOutcome.Panicked(reason)`;
  - `ColumnsOutcome.PanicsNotStruct`;
  - `Coerced.PanicsOnUnsigned` and `Coerced.PanicsOnAssertion`.

Modules:

- `Wrappers`: Option and Result.
- `GoTypes`: kinds, values, the four Null wrappers, field descriptors.
- `GoStrings`: ASCII `strings.ToLower`, `strings.TrimSpace`,
  `strings.Join`, and Go's string order.
- `Naming`: `snakeCasedName`.
- `FieldInfo`: `getFieldInfo`, with the class `FieldInfoCache` for
  `finfos`.
- `SortedColumns`: `Columns`, with an in-place sort of an array of names.
- `RowScan`: `Scan`, with the class `Record` for the struct that is
  filled in place.
- `NullCoercion`: `NullValue`.
- `TestScenario`: the two tests of `sqlstruct_test.go`.

Behaviour worth noting:

- **Snake case** (sqlstruct.go:78-84). The underscore is left out before
  the first capital letter the conversion meets, wherever it stands, not
  only at the first character. So `"fooBar"` becomes `"foobar"`
  (`Naming.SnakeCaseOneCapital`).
- **Nil pointers** (sqlstruct.go:155-162). A nil `*T` is refused only when
  some column is mapped to a field, because only `elem.Field(idx)` touches
  it. With no mapped column, `Scan` goes on and calls the row source.
- **Unsigned fields.** Integer wrappers are not narrowed or widened into
  unsigned fields. An unsigned field gets a `NullInt64` whose copy-back
  calls `SetInt`, which panics on an unsigned kind
  (`RowScan.UnsignedFieldPanics`). For the same reason, `NullValue`
  panics on an unsigned value.
- **Defined string types** (sqlstruct.go:255-256). `NullValue` asserts
  `value.(string)`, so a value of a defined string type such as
  `type Status string` panics, whatever it holds. Defined integer and
  float types go through `Int` and `Float` and are accepted.

## Model

| member | source | states |
|---|---|---|
| Naming.SnakeCasedName | sqlstruct.go:73-90 | the loop over the name returns exactly the snake-cased form `SnakeCase(name)` |
| Naming.SnakeCaseShape | sqlstruct.go:77-87 | the result has no ASCII capital letter; its length is the name's plus one per capital letter after the first |
| Naming.SnakeCaseNoUpper | sqlstruct.go:77-87 | a name without capital letters comes back unchanged |
| Naming.SnakeCaseIdempotent | sqlstruct.go:73-90 | converting twice gives the same as converting once |
| Naming.SnakeCaseIsTransducer | sqlstruct.go:75-86 | the prefix-wise definition equals the left-to-right walk with the `firstTime` flag as its state |
| Naming.SnakeCaseFirstCapital | sqlstruct.go:78-84 | the first capital letter met gets no underscore even when lower-case letters precede it (`fooB` becomes `foob`) |
| Naming.SnakeCaseOneCapital | sqlstruct.go:77-87 | a name with a single capital letter, wherever it stands, is only lower-cased (`fooBar` becomes `foobar`) |
| Naming.SnakeCaseField | sqlstruct.go:78-86 | `"Field"` followed by a capital X becomes `"field_x"` |
| Naming.SnakeCaseID | sqlstruct.go:78-84 | `"ID"` becomes `"i_d"` |
| GoStrings.ToLower | sqlstruct.go:118 | keeps the length; the result has no ASCII capital letter; a string without capitals is returned unchanged |
| GoStrings.TrimSpaceShape | sqlstruct.go:256 | the trimmed string is the slice of the input between a leading and a trailing run of white space, and neither starts nor ends with white space |
| GoStrings.TrimSpaceEmpty | sqlstruct.go:256 | a string trims to `""` exactly when all its characters are white space |
| GoStrings.JoinSnoc | sqlstruct.go:235 | joining one more element appends the separator and then the element |
| GoStrings.BelowIrreflexive | sqlstruct.go:234 | no string is below itself in Go's string order |
| GoStrings.BelowTransitive | sqlstruct.go:234 | Go's string order is transitive |
| GoStrings.BelowTotal | sqlstruct.go:234 | any two different strings are ordered one way or the other |
| GoStrings.BelowCommonPrefix | sqlstruct.go:234 | a common prefix does not change the order of two strings |
| FieldInfo.BuildInfo | sqlstruct.go:102-122 | every key is bound to an index of a field of the type |
| FieldInfo.BuildInfoSound | sqlstruct.go:105-121 | every key is the column name of the field it is bound to, and that field is exported, not anonymous and not tagged `"-"`; the column name is the lower-cased tag, or the snake-cased field name when the tag is empty |
| FieldInfo.BuildInfoComplete | sqlstruct.go:105-121 | every included field's column is a key, bound to that field or a later one |
| FieldInfo.BuildInfoLastWins | sqlstruct.go:121 | a column is bound to field i exactly when no later included field produces the same column |
| FieldInfo.FieldInfoCache.constructor | sqlstruct.go:57-59 | the cache starts empty |
| FieldInfo.FieldInfoCache.GetFieldInfo | sqlstruct.go:94-129 | returns the mapping of the type's fields; afterwards the cache holds it under the type and no other entry changes; on a hit the cache is left as it was; the cache invariant is kept |
| SortedColumns.SortStrings | sqlstruct.go:234 | sorts the array in place: ascending, and a permutation of its old contents |
| SortedColumns.InsertAt | sqlstruct.go:234 | one insertion step: extends the sorted prefix `a[..i + 1]` by one element; that prefix is a permutation of its old contents and the rest of the array is unchanged |
| SortedColumns.KeysOf | sqlstruct.go:229-232 | lists every key of the mapping exactly once |
| SortedColumns.SortedKeys | sqlstruct.go:229-235 | the keys in strictly ascending order, each exactly once |
| SortedColumns.ColumnListOfAnyAscendingListing | sqlstruct.go:229-235 | any strictly ascending listing of the keys joins to the same text, so the result does not depend on map iteration order |
| SortedColumns.SortedListing | sqlstruct.go:234-235 | sorting the distinct keys and joining them with `", "` gives the column list |
| SortedColumns.ColumnListEmpty | sqlstruct.go:229-235 | a type with no mapped field gives `""` |
| SortedColumns.ListColumns | sqlstruct.go:229-235 | the keys, sorted with the in-place sort and joined, are exactly `ColumnList(info)` |
| SortedColumns.Columns | sqlstruct.go:225-236 | for a struct type: the sorted, comma-separated keys of its mapping, with the cache updated as by getFieldInfo; for any other type: a panic and no change to the cache |
| GoTypes.ZeroValue | sqlstruct.go:187-218 | the zero value of a kind has that kind |
| GoTypes.WrapperValueIsPayloadOrZero | sqlstruct.go:187-218 | a Valid wrapper copies its payload back; a NULL one copies the zero value of its kind (`false`, `0`, `0.0`, `""`); the copied value has the kind of the wrapper's setter |
| RowScan.Targets | sqlstruct.go:153-181 | one target per column, in column order, each the target of its own column |
| RowScan.NullablesOf | sqlstruct.go:161-174 | nullableFields lists exactly the wrapper positions, with their fields |
| RowScan.TargetsMeaning | sqlstruct.go:154-178 | the per-column target `TargetFor` is a discard sink exactly when the lower-cased column is not mapped; otherwise the mapped field, which is included and produces that column; a wrapper exactly when the field's kind is bool, integer, float or string, and then the wrapper of that kind |
| RowScan.ColumnTarget | sqlstruct.go:154-179 | builds the target of one column; panics exactly when dest is nil and the column is mapped |
| RowScan.BuildTargets | sqlstruct.go:153-181 | returns the target list and nullableFields; with a nil dest it panics exactly when some column is mapped |
| RowScan.WrapperToValue | sqlstruct.go:188-217 | the value the copy-back writes for a wrapper: its payload when Valid, the zero value of the wrapper's kind when NULL |
| RowScan.CopyBackInto | sqlstruct.go:187-218 | the copy-back loop leaves the struct's fields, and reports a setter panic, exactly as `CopyBack` specifies |
| RowScan.CopyBack | sqlstruct.go:187-218 | the copy-back never changes a field's kind or the number of fields |
| RowScan.CopyBackStopsAtPanic | sqlstruct.go:187-218 | once a setter has panicked, no later entry is reached |
| RowScan.CopyBackPanicIff | sqlstruct.go:187-218 | the copy-back panics exactly when some entry's wrapper has a setter of another kind than its field |
| RowScan.CopyBackIsPhase | sqlstruct.go:161-218 | without a panic, the loop over nullableFields writes, in column order, every wrapper into its field |
| RowScan.PhaseUntouched | sqlstruct.go:183-218 | a field no position writes keeps its value |
| RowScan.PhaseLastWrite | sqlstruct.go:183-218 | a field holds what the last position writing it wrote |
| RowScan.WritesToMapped | sqlstruct.go:154-181 | a position writes field i through a wrapper, or through its address, exactly when its column maps to i and the field's kind does, or does not, take a wrapper |
| RowScan.DirectPhaseWellTyped | sqlstruct.go:183 | the row source's stores through field addresses keep every field of its declared kind |
| RowScan.LoadEffectWellTyped | sqlstruct.go:183-218 | after a load, whatever its outcome, every field still has its declared kind |
| RowScan.LoadEffectSettles | sqlstruct.go:183-218 | a load that succeeds is the row source's stores followed by the copy-back, in column order |
| RowScan.ScanFieldOutcome | sqlstruct.go:153-218 | after a successful load, a field no column matches keeps its value; a field whose last matching column delivered a wrapper holds its payload when Valid and its kind's zero value when NULL; otherwise it holds what the row source stored |
| RowScan.FillFailureSkipsCopyBack | sqlstruct.go:183-185 | a failing fill returns its error unchanged, and no wrapped-kind field changes |
| RowScan.UnsignedFieldPanics | sqlstruct.go:166-169 | with a complete fill, the load panics in a setter exactly when some column is matched to an unsigned field, and otherwise succeeds |
| RowScan.ColumnsFailurePassesThrough | sqlstruct.go:146-149 | a failure to fetch the column names is returned unchanged, and no field changes |
| RowScan.LoadRow | sqlstruct.go:143-221 | the outcome and the new fields are `LoadEffect`: target building, the fill, and the copy-back; the struct stays well-typed |
| RowScan.Scan | sqlstruct.go:134-221 | a dest that is not a pointer to a struct panics with nothing changed; otherwise the cache is updated as by getFieldInfo, and the outcome and new fields are `ScanEffect` |
| NullCoercion.NullValue | sqlstruct.go:238-264 | panics in `Int` exactly on unsigned values, and in the `value.(string)` assertion exactly on strings of a defined type; otherwise gives an invalid wrapper exactly for integer 0, float 0 and a string that trims to `""`, with the wrapper kind matching the value's kind, and returns every other value unchanged |
| NullCoercion.NullValueRoundTrip | sqlstruct.go:238-264 | scanning back what NullValue produced gives the value again, except that a blank string comes back as `""`; the two panics give nothing back |
| TestScenario.TestTypeInfo | sqlstruct_test.go:12-19 | the mapping of testType is field_a→0, field_c→2, field_d→3, field_e→4, field_f→5 |
| TestScenario.TestColumnListAscending | sqlstruct_test.go:67 | the expected column names are in strictly ascending order |
| TestScenario.TestColumns | sqlstruct_test.go:65-73 | Columns of testType is `"field_a, field_c, field_d, field_e, field_f"` |
| TestScenario.TestFillHonours | sqlstruct_test.go:27-54 | the mock rows keep to the positional contract of `Rows.Scan` |
| TestScenario.ShapeTargets | sqlstruct_test.go:76-81 | the targets for the mock columns are NullString, discard, NullString, NullString, NullBool |
| TestScenario.ShapeScan | sqlstruct_test.go:75-93 | scanning the mock rows into a zero struct shaped like testType succeeds and gives `{"a", "", "c", "d", true, 0}` |
| TestScenario.TestScan | sqlstruct_test.go:75-93 | scanning the mock rows into a zero testType succeeds and gives `{"a", "", "c", "d", true, 0}` |

## Left out

- Reflection is left out: `reflect.Type`, `Field`, `Addr` and the
  `Set*` calls. Struct types and values are explicit sequences, and the
  type switch on wrapper pointers is a case split on the `Wrapper`
  datatype.
- The `finfoLock` read-write mutex is left out. The cache is modelled
  sequentially.
- `database/sql` is left out. The row source's conversion of column
  data is the abstract fill, constrained only by the shape of each target.
- Integer narrowing by `SetInt` into `int8`/`int16`/`int32` is left
  out, and so are the signed-integer widths themselves. Integers are
  unbounded.
- Floats are reals. Rounding, NaN and negative zero are not modelled, so
  `NullValue`'s `v.Float() == 0` is the real comparison with 0.
- `strings.ToLower` handles ASCII letters only. Non-ASCII capitals and
  invalid UTF-8 are not modelled. `strings.TrimSpace` uses Unicode white
  space on code points.
- SortedColumns.SortStrings: the algorithm of `sort.Strings` is not
  modelled; an insertion sort stands for it. The result is the same,
  because a sorted permutation of distinct keys is unique.
- `Columns(nil)` and `Scan(nil, rows)` are not modelled: a nil interface
  has no type, and `reflect.ValueOf(nil).Type()` panics. Every other
  non-struct argument of `Columns` is modelled as the panic of `NumField`,
  and every other `Scan` destination that is not a pointer to a struct as
  the panic of `Scan` itself.
- The `testRows` mock is not part of this model. Only what it stores for
  the columns of `TestScan` is modelled (`TestScenario.TestFill`), not
  its `NullInt64` and `NullFloat64` branches.
