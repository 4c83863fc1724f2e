// The package's own test scenario: the testType struct, the column list
// Columns gives for it, and the struct Scan fills from the mock rows.

module TestScenario {
  import opened Wrappers
  import opened GoTypes
  import opened GoStrings
  import opened Naming
  import opened FieldInfo
  import opened SortedColumns
  import opened RowScan

  /** testType: a tagged field, an ignored one, a tag in mixed case, and
      three untagged fields of kinds string, bool and int. */
  const TestType := StructType("testType", [
    FieldDesc("FieldA", true, false, "field_a", String),
    FieldDesc("FieldB", true, false, "-", String),
    FieldDesc("FieldC", true, false, "field_C", String),
    FieldDesc("FieldD", true, false, "", String),
    FieldDesc("FieldE", true, false, "", Bool),
    FieldDesc("FieldF", true, false, "", Int)])

  const TestInfo: Info :=
    map["field_a" := 0, "field_c" := 2, "field_d" := 3, "field_e" := 4, "field_f" := 5]

  /** One more field of a struct type: an included field adds its column. */
  lemma BuildInfoStep(fs: seq<FieldDesc>, n: nat, prev: Info)
    requires 0 < n <= |fs| && BuildInfo(fs[..n - 1]) == prev
    ensures BuildInfo(fs[..n]) == if Included(fs[n - 1]) then prev[ColumnName(fs[n - 1]) := n - 1] else prev
  {
    assert fs[..n][..n - 1] == fs[..n - 1];
  }

  /** The column each tagged field of testType maps to, when it is included. */
  lemma TestTaggedColumns()
    ensures ColumnName(TestType.fields[0]) == "field_a"
    ensures !Included(TestType.fields[1])
    ensures ColumnName(TestType.fields[2]) == "field_c"
  {
    assert ToLower("field_a") == "field_a";
    assert ToLower("field_C") == "field_c";
  }

  /** An untagged field named "Field" and a capital letter. */
  lemma UntaggedColumn(f: FieldDesc, c: char)
    requires f.tag == "" && f.name == "Field" + [c] && IsUpper(c)
    ensures ColumnName(f) == "field_" + [LowerChar(c)]
  {
    SnakeCaseField(c);
  }

  /** The untagged fields of testType are snake-cased. */
  lemma TestUntaggedColumns()
    ensures ColumnName(TestType.fields[3]) == "field_d"
    ensures ColumnName(TestType.fields[4]) == "field_e"
    ensures ColumnName(TestType.fields[5]) == "field_f"
  {
    UntaggedColumn(TestType.fields[3], 'D');
    UntaggedColumn(TestType.fields[4], 'E');
    UntaggedColumn(TestType.fields[5], 'F');
  }

  /** The first three fields of testType: FieldB is skipped for its "-" tag. */
  lemma TestTypeInfoFirstThree()
    ensures BuildInfo(TestType.fields[..3]) == map["field_a" := 0, "field_c" := 2]
  {
    var fs := TestType.fields;
    var m0: Info := map[];
    var m1 := m0["field_a" := 0];
    assert BuildInfo(fs[..1]) == m1 by {
      assert fs[..0] == [];
      TestTaggedColumns();
      BuildInfoStep(fs, 1, m0);
    }
    assert BuildInfo(fs[..2]) == m1 by {
      TestTaggedColumns();
      BuildInfoStep(fs, 2, m1);
    }
    TestTaggedColumns();
    BuildInfoStep(fs, 3, m1);
  }

  lemma TestTypeInfo()
    ensures BuildInfo(TestType.fields) == TestInfo
  {
    var fs := TestType.fields;
    var m3: Info := map["field_a" := 0, "field_c" := 2];
    var m4 := m3["field_d" := 3];
    var m5 := m4["field_e" := 4];
    TestTypeInfoFirstThree();
    assert BuildInfo(fs[..4]) == m4 by {
      TestUntaggedColumns();
      BuildInfoStep(fs, 4, m3);
    }
    assert BuildInfo(fs[..5]) == m5 by {
      TestUntaggedColumns();
      BuildInfoStep(fs, 5, m4);
    }
    assert BuildInfo(fs[..6]) == TestInfo by {
      TestUntaggedColumns();
      BuildInfoStep(fs, 6, m5);
    }
    assert fs[..6] == fs;
  }

  const TestColumnList := ["field_a", "field_c", "field_d", "field_e", "field_f"]

  /** The five column names differ only in their last letter, in order. */
  lemma TestColumnListAscending()
    ensures StrictlyAscending(TestColumnList)
  {
    var names := TestColumnList;
    var pre := "field_";
    assert pre + "a" == names[0] && pre + "c" == names[1] && pre + "d" == names[2];
    assert pre + "e" == names[3] && pre + "f" == names[4];
    forall i, j | 0 <= i < j < |names|
      ensures Below(names[i], names[j])
    {
      var x := names[i][6];
      var y := names[j][6];
      assert names[i] == pre + [x] && names[j] == pre + [y];
      BelowCommonPrefix(pre, [x], [y]);
      assert [x][1..] == [];
    }
  }

  lemma JoinCons(x: string, rest: seq<string>, sep: string)
    requires rest != []
    ensures Join([x] + rest, sep) == x + sep + Join(rest, sep)
  {
    assert ([x] + rest)[1..] == rest;
  }

  /** Join of five parts, written out. */
  lemma JoinFive(a: string, b: string, c: string, d: string, e: string, sep: string)
    ensures Join([a, b, c, d, e], sep) == a + sep + b + sep + c + sep + d + sep + e
  {
    JoinCons(d, [e], sep);
    assert [d, e] == [d] + [e];
    JoinCons(c, [d, e], sep);
    assert [c, d, e] == [c] + [d, e];
    JoinCons(b, [c, d, e], sep);
    assert [b, c, d, e] == [b] + [c, d, e];
    JoinCons(a, [b, c, d, e], sep);
    assert [a, b, c, d, e] == [a] + [b, c, d, e];
  }

  lemma TestColumnListJoined()
    ensures Join(TestColumnList, ", ") ==
      "field_a" + ", " + "field_c" + ", " + "field_d" + ", " + "field_e" + ", " + "field_f"
  {
    JoinFive("field_a", "field_c", "field_d", "field_e", "field_f", ", ");
  }

  /** TestColumns: the mapped column names, sorted and comma-separated. */
  lemma TestColumns()
    ensures ColumnList(BuildInfo(TestType.fields)) ==
      "field_a" + ", " + "field_c" + ", " + "field_d" + ", " + "field_e" + ", " + "field_f"
  {
    TestTypeInfo();
    TestColumnListAscending();
    assert forall x :: x in TestColumnList <==> x in TestInfo;
    ColumnListOfAnyAscendingListing(TestInfo, TestColumnList);
    TestColumnListJoined();
  }

  /** The mock rows of TestScan: five columns, field_b matching no field. */
  const TestCols := ["field_a", "field_b", "field_c", "field_d", "field_e"]

  /** The targets Scan hands to the rows: a wrapper per mapped string or
      bool field, a discard sink for field_b. */
  const TestTargets := [Nullable(0, NullStringType), Discard, Nullable(2, NullStringType),
                        Nullable(3, NullStringType), Nullable(4, NullBoolType)]

  /** What the mock stores: each wrapper made Valid with the column's value. */
  const TestScanned := [IntoWrapper(NullString(true, "a")), Dropped, IntoWrapper(NullString(true, "c")),
                        IntoWrapper(NullString(true, "d")), IntoWrapper(NullBool(true, true))]

  function TestFill(ts: seq<Target>): FillResult
  {
    if ts == TestTargets then Filled(TestScanned) else FillFailed(Error("unexpected destinations"), [])
  }

  const TestRows := Rows(Success(TestCols), TestFill)

  /** The column names of TestScan are already in lower case. */
  lemma TestColsLower()
    ensures forall p :: 0 <= p < |TestCols| ==> ToLower(TestCols[p]) == TestCols[p]
  {
    forall p | 0 <= p < |TestCols|
      ensures ToLower(TestCols[p]) == TestCols[p]
    {
      var c := TestCols[p];
      assert forall k :: 0 <= k < |c| ==> !IsUpper(c[k]);
    }
  }

  /** Lookups in the mapping of testType, told apart by the seventh character of each key. */
  lemma TestInfoLookups()
    ensures forall p :: 0 <= p < |TestCols| ==> (TestCols[p] in TestInfo <==> p != 1)
    ensures forall p :: 0 <= p < |TestCols| && p != 1 ==> TestInfo[TestCols[p]] == p
  {
    assert "field_a"[6] == 'a' && "field_b"[6] == 'b' && "field_c"[6] == 'c';
    assert "field_d"[6] == 'd' && "field_e"[6] == 'e' && "field_f"[6] == 'f';
  }

  /** What TestScan needs to know of testType: its mapping and its kinds. */
  predicate ShapedLikeTestType(st: StructType)
  {
    |st.fields| == 6 && BuildInfo(st.fields) == TestInfo &&
    st.fields[0].kind == String && st.fields[1].kind == String && st.fields[2].kind == String &&
    st.fields[3].kind == String && st.fields[4].kind == Bool && st.fields[5].kind == Int
  }

  lemma TestTypeShape()
    ensures ShapedLikeTestType(TestType)
  {
    TestTypeInfo();
  }

  /** Column p of TestScan is matched to field p, except field_b, which
      matches nothing. */
  lemma ShapeMapping(st: StructType)
    requires ShapedLikeTestType(st)
    ensures forall p :: 0 <= p < |TestCols| ==> (ToLower(TestCols[p]) in BuildInfo(st.fields) <==> p != 1)
    ensures forall p :: 0 <= p < |TestCols| && p != 1 ==> BuildInfo(st.fields)[ToLower(TestCols[p])] == p
  {
    TestColsLower();
    TestInfoLookups();
  }

  lemma ShapeTarget(st: StructType, p: nat)
    requires ShapedLikeTestType(st) && p < |TestCols|
    ensures TargetFor(st, TestCols[p]) == TestTargets[p]
  {
    ShapeMapping(st);
  }

  lemma ShapeTargets(st: StructType)
    requires ShapedLikeTestType(st)
    ensures Targets(st, TestCols) == TestTargets
  {
    forall p | 0 <= p < |TestCols|
      ensures Targets(st, TestCols)[p] == TestTargets[p]
    {
      ShapeTarget(st, p);
    }
  }

  /** The mock keeps to the positional contract of Rows.Scan. */
  lemma TestFillHonours(st: StructType)
    ensures Honours(st, TestFill)
  {
    forall ts
      ensures FillConforms(st, ts, TestFill(ts))
    {
      if ts == TestTargets {
        assert forall p :: 0 <= p < |TestScanned| ==> Conforms(st, ts[p], TestScanned[p]);
      }
    }
  }

  const Expected := [StringV("a"), StringV(""), StringV("c"), StringV("d"), BoolV(true), IntV(0)]

  lemma ShapeSigned(st: StructType)
    requires ShapedLikeTestType(st)
    ensures forall p :: 0 <= p < |TestCols| ==> !MapsToUnsigned(st, TestCols[p])
  {
    forall p | 0 <= p < |TestCols|
      ensures !MapsToUnsigned(st, TestCols[p])
    {
      ShapeMapping(st);
    }
  }

  /** No column of TestScan is matched to an unsigned field, so the copy-back does not panic. */
  lemma ShapeOk(st: StructType)
    requires ShapedLikeTestType(st)
    ensures FillConforms(st, Targets(st, TestCols), TestFill(Targets(st, TestCols)))
    ensures LoadEffect(st, ZeroFields(st), false, TestCols, TestFill).0 == Ok
  {
    ShapeTargets(st);
    ShapeMapping(st);
    TestFillHonours(st);
    assert FillConforms(st, TestTargets, TestFill(TestTargets));
    ShapeSigned(st);
    UnsignedFieldPanics(st, ZeroFields(st), TestCols, TestFill);
  }

  /** Which columns of TestScan match field i. */
  lemma ShapeMapsTo(st: StructType, i: nat)
    requires ShapedLikeTestType(st) && i < 6
    ensures i == 1 || i == 5 ==> forall p :: 0 <= p < |TestCols| ==> !MapsTo(st, TestCols[p], i)
    ensures i != 1 && i != 5 ==>
      MapsTo(st, TestCols[i], i) && forall q :: i < q < |TestCols| ==> !MapsTo(st, TestCols[q], i)
  {
    ShapeMapping(st);
  }

  /** A field no column matches keeps the zero value of its kind. */
  lemma UnmatchedStaysZero(st: StructType, cols: seq<string>, fill: seq<Target> -> FillResult, i: nat)
    requires i < |st.fields|
    requires FillConforms(st, Targets(st, cols), fill(Targets(st, cols)))
    requires fill(Targets(st, cols)).Filled?
    requires LoadEffect(st, ZeroFields(st), false, cols, fill).0 == Ok
    requires forall p :: 0 <= p < |cols| ==> !MapsTo(st, cols[p], i)
    ensures LoadEffect(st, ZeroFields(st), false, cols, fill).1[i] == ZeroValue(st.fields[i].kind)
  {
    ScanFieldOutcome(st, ZeroFields(st), cols, fill, i);
  }

  /** FieldB and FieldF, which no column matches, keep their zero values. */
  lemma ShapeFieldUnmapped(st: StructType, i: nat)
    requires ShapedLikeTestType(st) && (i == 1 || i == 5)
    ensures LoadEffect(st, ZeroFields(st), false, TestCols, TestFill).1[i] == Expected[i]
  {
    ShapeOk(st);
    ShapeMapsTo(st, i);
    UnmatchedStaysZero(st, TestCols, TestFill, i);
    assert Expected[i] == ZeroValue(st.fields[i].kind);
  }

  /** Every wrapper the mock stores is Valid and holds the expected value. */
  lemma TestScannedValid(i: nat)
    requires i < 5 && i != 1
    ensures TestScanned[i].IntoWrapper? && TestScanned[i].w.valid
    ensures Payload(TestScanned[i].w) == Expected[i]
  {
  }

  /** The other fields receive the value the mock made Valid. */
  lemma ShapeFieldMapped(st: StructType, i: nat)
    requires ShapedLikeTestType(st) && i < 5 && i != 1
    ensures LoadEffect(st, ZeroFields(st), false, TestCols, TestFill).1[i] == Expected[i]
  {
    ShapeOk(st);
    ShapeTargets(st);
    ShapeMapsTo(st, i);
    assert TestFill(Targets(st, TestCols)).scanned == TestScanned;
    ScanFieldOutcome(st, ZeroFields(st), TestCols, TestFill, i);
    TestScannedValid(i);
  }

  /** Scanning the mock rows into a zero struct shaped like testType. */
  lemma ShapeScan(st: StructType)
    requires ShapedLikeTestType(st)
    ensures ScanEffect(st, ZeroFields(st), false, TestRows) == (Ok, Expected)
  {
    ShapeOk(st);
    assert ScanEffect(st, ZeroFields(st), false, TestRows) == LoadEffect(st, ZeroFields(st), false, TestCols, TestFill);
    var after := LoadEffect(st, ZeroFields(st), false, TestCols, TestFill).1;
    assert |after| == 6;
    forall i | 0 <= i < 6
      ensures after[i] == Expected[i]
    {
      if i == 1 || i == 5 {
        ShapeFieldUnmapped(st, i);
      } else {
        ShapeFieldMapped(st, i);
      }
    }
    assert after == Expected;
  }

  /**
   * TestScan: scanning the mock rows into a zero testType yields
   * {"a", "", "c", "d", true, 0}: FieldB is ignored, FieldF gets no column,
   * and the others receive their column's value.
   */
  lemma TestScan()
    ensures ScanEffect(TestType, ZeroFields(TestType), false, TestRows) == (Ok, Expected)
  {
    TestTypeShape();
    ShapeScan(TestType);
  }
}
