/**
 * getFieldInfo: the mapping from column name to field index for a struct
 * type, and the process-wide cache (finfos) that memoises it per type.
 */
module FieldInfo {
  import opened GoTypes
  import opened GoStrings
  import opened Naming

  /** fieldInfo: column name to field index. */
  type Info = map<string, nat>

  /** Fields that take part in the mapping: exported, not tagged "-", not anonymous. */
  predicate Included(f: FieldDesc)
  {
    f.exported && f.tag != "-" && !f.anonymous
  }

  /** The column a field maps to: its lower-cased tag, or the snake-cased
      field name when the tag is empty. */
  function ColumnName(f: FieldDesc): string
  {
    if f.tag == "" then SnakeCase(f.name) else ToLower(f.tag)
  }

  /**
   * The mapping the declarations of a struct type determine, defined over
   * prefixes of the field list in declaration order. Every key is bound
   * to a field of the list; BuildInfoSound adds that it is the column name
   * of that field, which is included, and BuildInfoComplete that every
   * included field's column is a key, bound to the LAST included field
   * that produces it.
   */
  function BuildInfo(fs: seq<FieldDesc>): (m: Info)
    ensures forall k :: k in m ==> m[k] < |fs|
    decreases |fs|
  {
    if fs == [] then map[]
    else
      var n := |fs| - 1;
      var prev := BuildInfo(fs[..n]);
      assert forall i :: 0 <= i < n ==> fs[..n][i] == fs[i];
      if Included(fs[n]) then prev[ColumnName(fs[n]) := n] else prev
  }

  /** Every key is the column name of the included field it is bound to. */
  lemma {:induction false} BuildInfoSound(fs: seq<FieldDesc>)
    ensures forall k :: k in BuildInfo(fs) ==>
      Included(fs[BuildInfo(fs)[k]]) && ColumnName(fs[BuildInfo(fs)[k]]) == k
    decreases |fs|
  {
    if fs != [] {
      var n := |fs| - 1;
      var prev := BuildInfo(fs[..n]);
      var m := BuildInfo(fs);
      BuildInfoSound(fs[..n]);
      assert m == if Included(fs[n]) then prev[ColumnName(fs[n]) := n] else prev;
      forall k | k in m
        ensures Included(fs[m[k]]) && ColumnName(fs[m[k]]) == k
      {
        if !(Included(fs[n]) && k == ColumnName(fs[n])) {
          assert fs[..n][prev[k]] == fs[prev[k]];
        }
      }
    }
  }

  /** Every included field's column is mapped, to that field or a later one. */
  lemma {:induction false} BuildInfoComplete(fs: seq<FieldDesc>)
    ensures forall i :: 0 <= i < |fs| && Included(fs[i]) ==>
      ColumnName(fs[i]) in BuildInfo(fs) && i <= BuildInfo(fs)[ColumnName(fs[i])]
    decreases |fs|
  {
    if fs != [] {
      var n := |fs| - 1;
      var prev := BuildInfo(fs[..n]);
      var m := BuildInfo(fs);
      BuildInfoComplete(fs[..n]);
      assert m == if Included(fs[n]) then prev[ColumnName(fs[n]) := n] else prev;
      forall i | 0 <= i < |fs| && Included(fs[i])
        ensures ColumnName(fs[i]) in m && i <= m[ColumnName(fs[i])]
      {
        if i < n {
          assert fs[..n][i] == fs[i];
        }
      }
    }
  }

  /** Last wins: the field a column is bound to is the last included field
      producing that column. */
  lemma BuildInfoLastWins(fs: seq<FieldDesc>, i: nat)
    requires i < |fs| && Included(fs[i])
    ensures ColumnName(fs[i]) in BuildInfo(fs)
    ensures ColumnName(fs[i]) in BuildInfo(fs) &&
      (BuildInfo(fs)[ColumnName(fs[i])] == i <==>
       forall j :: i < j < |fs| && Included(fs[j]) ==> ColumnName(fs[j]) != ColumnName(fs[i]))
  {
    BuildInfoComplete(fs);
  }

  /** The finfos cache. Every entry is the mapping of its own type. */
  class FieldInfoCache {
    var entries: map<StructType, Info>

    ghost predicate Valid()
      reads this
    {
      forall t :: t in entries ==> entries[t] == BuildInfo(t.fields)
    }

    /** The package's init: an empty cache. */
    constructor ()
      ensures Valid() && entries == map[]
    {
      entries := map[];
    }

    /**
     * getFieldInfo: on a hit, return the cached mapping and leave the cache
     * alone; on a miss, build the mapping by walking the fields in
     * declaration order and store it under typ.
     */
    method GetFieldInfo(typ: StructType) returns (info: Info)
      requires Valid()
      modifies this
      ensures Valid()
      ensures info == BuildInfo(typ.fields)
      ensures entries == old(entries)[typ := info]
      ensures typ in old(entries) ==> entries == old(entries)
    {
      if typ in entries {
        info := entries[typ];
        assert entries[typ := info] == entries;
        return;
      }
      info := map[];
      var fs := typ.fields;
      var i := 0;
      while i < |fs|
        invariant 0 <= i <= |fs|
        invariant info == BuildInfo(fs[..i])
        invariant entries == old(entries)
      {
        assert fs[..i + 1][..i] == fs[..i];
        var f := fs[i];
        var tag := f.tag;
        if !f.exported || tag == "-" || f.anonymous {
          i := i + 1;
          continue;
        }
        if tag == "" {
          tag := SnakeCasedName(f.name);
        } else {
          tag := ToLower(tag);
        }
        info := info[tag := i];
        i := i + 1;
      }
      assert fs[..|fs|] == fs;
      entries := entries[typ := info];
    }
  }
}
