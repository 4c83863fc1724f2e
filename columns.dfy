/**
 * Columns: the sorted, comma-separated list of the column names of a
 * struct type, for use in a SELECT clause.
 */
module SortedColumns {
  import opened GoTypes
  import opened GoStrings
  import opened FieldInfo

  predicate Ascending(s: seq<string>)
  {
    forall i, j :: 0 <= i < j < |s| ==> AtMost(s[i], s[j])
  }

  predicate StrictlyAscending(s: seq<string>)
  {
    forall i, j :: 0 <= i < j < |s| ==> Below(s[i], s[j])
  }

  predicate Distinct(s: seq<string>)
  {
    forall i, j :: 0 <= i < j < |s| ==> s[i] != s[j]
  }

  /** sort.Strings: sorts the slice in place into ascending order. */
  method SortStrings(a: array<string>)
    modifies a
    ensures Ascending(a[..])
    ensures multiset(a[..]) == old(multiset(a[..]))
  {
    var i := 0;
    while i < a.Length
      invariant 0 <= i <= a.Length
      invariant forall p, q :: 0 <= p < q < i ==> AtMost(a[p], a[q])
      invariant multiset(a[..]) == old(multiset(a[..]))
    {
      InsertAt(a, i);
      i := i + 1;
    }
  }

  /** One pass of insertion sort: moves a[i] down into the sorted prefix a[..i]. */
  method InsertAt(a: array<string>, i: int)
    requires 0 <= i < a.Length
    requires forall p, q :: 0 <= p < q < i ==> AtMost(a[p], a[q])
    modifies a
    ensures forall p, q :: 0 <= p < q <= i ==> AtMost(a[p], a[q])
    ensures multiset(a[..i + 1]) == old(multiset(a[..i + 1]))
    ensures a[i + 1..] == old(a[i + 1..])
    ensures multiset(a[..]) == old(multiset(a[..]))
  {
    var j := i;
    while j > 0 && Below(a[j], a[j - 1])
      invariant 0 <= j <= i
      invariant forall p, q :: 0 <= p < q <= i && p != j && q != j ==> AtMost(a[p], a[q])
      invariant forall q :: j < q <= i ==> AtMost(a[j], a[q])
      invariant multiset(a[..i + 1]) == old(multiset(a[..i + 1]))
      invariant a[i + 1..] == old(a[i + 1..])
    {
      SwapDown(a, j, i);
      j := j - 1;
    }
    if j > 0 {
      BelowTotal(a[j], a[j - 1]);
      forall p | 0 <= p < j - 1
        ensures AtMost(a[p], a[j])
      {
        AtMostTransitive(a[p], a[j - 1], a[j]);
      }
    }
    assert a[..] == a[..i + 1] + a[i + 1..];
    assert old(a[..]) == old(a[..i + 1]) + old(a[i + 1..]);
  }

  /** Swaps a[j - 1] and a[j], both inside the prefix a[..i + 1]. */
  method SwapDown(a: array<string>, j: int, i: int)
    requires 0 < j <= i < a.Length
    modifies a
    ensures a[j - 1] == old(a[j]) && a[j] == old(a[j - 1])
    ensures forall p :: 0 <= p < a.Length && p != j - 1 && p != j ==> a[p] == old(a[p])
    ensures multiset(a[..i + 1]) == old(multiset(a[..i + 1]))
    ensures a[i + 1..] == old(a[i + 1..])
  {
    a[j - 1], a[j] := a[j], a[j - 1];
  }

  /** Every non-empty finite set of strings has a least element. */
  lemma {:induction false} LeastExists(ks: set<string>)
    requires ks != {}
    ensures exists m :: m in ks && forall x :: x in ks ==> AtMost(m, x)
    decreases |ks|
  {
    var y :| y in ks;
    var rest := ks - {y};
    if rest == {} {
      assert ks == {y};
    } else {
      LeastExists(rest);
      var m :| m in rest && forall x :: x in rest ==> AtMost(m, x);
      BelowTotal(m, y);
      if AtMost(m, y) {
        assert forall x :: x in ks ==> AtMost(m, x);
      } else {
        forall x | x in ks
          ensures AtMost(y, x)
        {
          if x != y { AtMostTransitive(y, m, x); }
        }
      }
    }
  }

  /** The keys of a set listed once each, in strictly ascending order. */
  ghost function SortedKeys(ks: set<string>): (r: seq<string>)
    ensures StrictlyAscending(r)
    ensures forall x :: x in r <==> x in ks
    ensures |r| == |ks|
    decreases |ks|
  {
    if ks == {} then []
    else
      LeastExists(ks);
      var m :| m in ks && forall x :: x in ks ==> AtMost(m, x);
      var rest := SortedKeys(ks - {m});
      assert forall x :: x in rest ==> Below(m, x);
      [m] + rest
  }

  /** Two strictly ascending listings of the same strings are equal. */
  lemma {:induction false} StrictlyAscendingUnique(s: seq<string>, t: seq<string>)
    requires StrictlyAscending(s) && StrictlyAscending(t)
    requires forall x :: x in s <==> x in t
    ensures s == t
    decreases |s|
  {
    assert |t| > 0 ==> t[0] in t;
    if s != [] {
      assert s[0] in t && t[0] in s;
      var i :| 0 <= i < |t| && t[i] == s[0];
      var j :| 0 <= j < |s| && s[j] == t[0];
      if i != 0 && j != 0 {
        BelowAsymmetric(s[0], t[0]);
      }
      if i != 0 {
        BelowIrreflexive(t[0]);
      } else if j != 0 {
        BelowIrreflexive(s[0]);
      }
      assert s[0] == t[0];
      forall x
        ensures x in s[1..] <==> x in t[1..]
      {
        if x in s[1..] {
          var k :| 0 <= k < |s[1..]| && s[1..][k] == x;
          assert Below(s[0], s[k + 1]);
          BelowIrreflexive(x);
          assert x in t && x != t[0];
        }
        if x in t[1..] {
          var k :| 0 <= k < |t[1..]| && t[1..][k] == x;
          assert Below(t[0], t[k + 1]);
          BelowIrreflexive(x);
          assert x in s && x != s[0];
        }
      }
      StrictlyAscendingUnique(s[1..], t[1..]);
      assert s == [s[0]] + s[1..] && t == [t[0]] + t[1..];
    }
  }

  /** The text Columns produces for a mapping. */
  ghost function ColumnList(info: Info): string
  {
    Join(SortedKeys(info.Keys), ", ")
  }

  /**
   * The column list does not depend on the order in which the mapping's
   * keys are met: any strictly ascending listing of the keys joins to it.
   */
  lemma ColumnListOfAnyAscendingListing(info: Info, names: seq<string>)
    requires StrictlyAscending(names)
    requires forall x :: x in names <==> x in info
    ensures ColumnList(info) == Join(names, ", ")
    ensures |names| == |info|
  {
    StrictlyAscendingUnique(names, SortedKeys(info.Keys));
  }

  /** A struct type with no mapped field lists no column. */
  lemma ColumnListEmpty(info: Info)
    requires info == map[]
    ensures ColumnList(info) == ""
  {
    assert info.Keys == {};
  }

  lemma {:induction false} MultisetCountsOfDistinct(t: seq<string>)
    requires Distinct(t)
    ensures forall x :: multiset(t)[x] <= 1
    decreases |t|
  {
    if t != [] {
      var n := |t| - 1;
      assert t == t[..n] + [t[n]];
      assert Distinct(t[..n]);
      MultisetCountsOfDistinct(t[..n]);
      assert t[n] !in t[..n];
    }
  }

  lemma RepeatCountsTwice(s: seq<string>, i: nat, j: nat)
    requires i < j < |s|
    ensures s[i] == s[j] ==> multiset(s)[s[i]] >= 2
  {
    assert s == s[..i] + [s[i]] + s[i + 1..j] + [s[j]] + s[j + 1..];
  }

  lemma DistinctByMultiset(s: seq<string>, t: seq<string>)
    requires multiset(s) == multiset(t) && Distinct(t)
    ensures Distinct(s)
  {
    MultisetCountsOfDistinct(t);
    forall i, j | 0 <= i < j < |s|
      ensures s[i] != s[j]
    {
      RepeatCountsTwice(s, i, j);
    }
  }

  /** Sorting a duplicate-free listing of the keys gives a strictly
      ascending listing of the same keys. */
  lemma SortedListing(sorted: seq<string>, names: seq<string>, info: Info)
    requires Ascending(sorted) && multiset(sorted) == multiset(names)
    requires Distinct(names) && forall x :: x in names <==> x in info
    ensures ColumnList(info) == Join(sorted, ", ")
  {
    DistinctByMultiset(sorted, names);
    forall x
      ensures x in sorted <==> x in info
    {
      assert x in sorted <==> x in multiset(sorted);
      assert x in names <==> x in multiset(names);
    }
    ColumnListOfAnyAscendingListing(info, sorted);
  }

  datatype ColumnsOutcome = Listed(columns: string) | PanicsNotStruct

  /** The keys of a mapping, in whatever order the map yields them. */
  method KeysOf(info: Info) returns (names: seq<string>)
    ensures Distinct(names)
    ensures forall x :: x in names <==> x in info
  {
    names := [];
    var rest := info.Keys;
    while rest != {}
      invariant rest <= info.Keys
      invariant forall x :: x in names <==> x in info && x !in rest
      invariant Distinct(names)
      decreases |rest|
    {
      var f :| f in rest;
      names := names + [f];
      rest := rest - {f};
    }
  }

  /** The keys of a mapping sorted with sort.Strings and joined with ", ". */
  method ListColumns(info: Info) returns (s: string)
    ensures s == ColumnList(info)
  {
    var names := KeysOf(info);
    var a := new string[|names|](i requires 0 <= i < |names| => names[i]);
    assert a[..] == names;
    SortStrings(a);
    SortedListing(a[..], names, info);
    s := Join(a[..], ", ");
  }

  /**
   * Columns(s): resolves the mapping of the struct type of s through the
   * cache, then lists its keys in sorted order. Any other type makes
   * getFieldInfo's NumField panic, before anything is cached.
   */
  method Columns(cache: FieldInfoCache, typ: TypeDesc) returns (r: ColumnsOutcome)
    requires cache.Valid()
    modifies cache
    ensures cache.Valid()
    ensures typ.Struct? ==> r == Listed(ColumnList(BuildInfo(typ.st.fields)))
    ensures typ.Struct? ==> cache.entries == old(cache.entries)[typ.st := BuildInfo(typ.st.fields)]
    ensures !typ.Struct? ==> r == PanicsNotStruct && cache.entries == old(cache.entries)
  {
    if !typ.Struct? {
      return PanicsNotStruct;
    }
    var fields := cache.GetFieldInfo(typ.st);
    var s := ListColumns(fields);
    r := Listed(s);
  }
}
