/**
 * snakeCasedName: the column name sqlstruct derives from a field name that
 * carries no "sql" tag.
 */
module Naming {
  import opened GoStrings

  /** Number of ASCII capital letters in s. */
  function CountUpper(s: string): nat
    decreases |s|
  {
    if s == [] then 0
    else CountUpper(s[..|s| - 1]) + (if IsUpper(s[|s| - 1]) then 1 else 0)
  }

  /** What the conversion appends for character c, given whether a capital
      letter has already been met. */
  function Step(c: char, seenUpper: bool): string
  {
    if !IsUpper(c) then [c]
    else if seenUpper then ['_', LowerChar(c)]
    else [LowerChar(c)]
  }

  /**
   * The snake-cased form of a name, defined over its prefixes the way the
   * conversion consumes the name from left to right. Every capital letter
   * is lower-cased and, except for the first capital letter met (wherever
   * it stands), is preceded by an underscore (SnakeCaseShape).
   */
  function SnakeCase(name: string): string
    decreases |name|
  {
    if name == [] then ""
    else
      var init := name[..|name| - 1];
      SnakeCase(init) + Step(name[|name| - 1], CountUpper(init) > 0)
  }

  /** The snake-cased form has no capital letter, and one character more
      than the name for every capital letter after the first. */
  lemma {:induction false} SnakeCaseShape(name: string)
    ensures forall i :: 0 <= i < |SnakeCase(name)| ==> !IsUpper(SnakeCase(name)[i])
    ensures |SnakeCase(name)| == |name| + (if CountUpper(name) == 0 then 0 else CountUpper(name) - 1)
    decreases |name|
  {
    if name != [] {
      var init := name[..|name| - 1];
      SnakeCaseShape(init);
      var r := SnakeCase(name);
      var s := Step(name[|name| - 1], CountUpper(init) > 0);
      assert r == SnakeCase(init) + s;
      forall i | 0 <= i < |r|
        ensures !IsUpper(r[i])
      {
        if i < |SnakeCase(init)| {
          assert r[i] == SnakeCase(init)[i];
        } else {
          assert r[i] == s[i - |SnakeCase(init)|];
        }
      }
    }
  }

  /** One more character of a name. */
  lemma SnakeCasePrefixStep(name: string, i: nat)
    requires i < |name|
    ensures SnakeCase(name[..i + 1]) == SnakeCase(name[..i]) + Step(name[i], CountUpper(name[..i]) > 0)
    ensures CountUpper(name[..i + 1]) == CountUpper(name[..i]) + (if IsUpper(name[i]) then 1 else 0)
  {
    assert name[..i + 1][..i] == name[..i];
  }

  /** snakeCasedName, walking the characters of the name once. */
  method SnakeCasedName(name: string) returns (r: string)
    ensures r == SnakeCase(name)
  {
    var newstr: string := [];
    var firstTime := true;
    var i := 0;
    while i < |name|
      invariant 0 <= i <= |name|
      invariant newstr == SnakeCase(name[..i])
      invariant firstTime <==> CountUpper(name[..i]) == 0
    {
      var chr := name[i];
      SnakeCasePrefixStep(name, i);
      ghost var before := newstr;
      if IsUpper(chr) {
        if firstTime {
          firstTime := false;
        } else {
          newstr := newstr + ['_'];
        }
        chr := (chr as int - ('A' as int - 'a' as int)) as char;
      }
      assert chr == LowerChar(name[i]);
      newstr := newstr + [chr];
      assert newstr == before + Step(name[i], CountUpper(name[..i]) > 0);
      i := i + 1;
    }
    assert name[..|name|] == name;
    r := newstr;
  }

  /** A name without capital letters is its own snake-cased form. */
  lemma {:induction false} SnakeCaseNoUpper(name: string)
    requires forall i :: 0 <= i < |name| ==> !IsUpper(name[i])
    ensures SnakeCase(name) == name
    decreases |name|
  {
    if name != [] {
      var init := name[..|name| - 1];
      SnakeCaseNoUpper(init);
      assert init + [name[|name| - 1]] == name;
    }
  }

  /** Converting twice is converting once. */
  lemma SnakeCaseIdempotent(name: string)
    ensures SnakeCase(SnakeCase(name)) == SnakeCase(name)
  {
    SnakeCaseShape(name);
    SnakeCaseNoUpper(SnakeCase(name));
  }

  /** The conversion written head first, as a left-to-right transducer with
      the "capital letter seen" flag as its state. */
  function SnakeFrom(s: string, seenUpper: bool): string
    decreases |s|
  {
    if s == [] then ""
    else Step(s[0], seenUpper) + SnakeFrom(s[1..], seenUpper || IsUpper(s[0]))
  }

  lemma Associative(a: string, b: string, c: string)
    ensures a + b + c == a + (b + c)
  {
  }

  lemma {:induction false} SnakeSplit(p: string, s: string)
    ensures SnakeCase(p + s) == SnakeCase(p) + SnakeFrom(s, CountUpper(p) > 0)
    decreases |s|
  {
    if s == [] {
      assert p + s == p;
      assert SnakeCase(p) + SnakeFrom(s, CountUpper(p) > 0) == SnakeCase(p) + "";
    } else {
      var p' := p + [s[0]];
      var seen := CountUpper(p) > 0;
      assert p' + s[1..] == p + s;
      assert p'[..|p'| - 1] == p;
      assert CountUpper(p') == CountUpper(p) + (if IsUpper(s[0]) then 1 else 0);
      assert SnakeCase(p') == SnakeCase(p) + Step(s[0], seen);
      assert SnakeFrom(s, seen) == Step(s[0], seen) + SnakeFrom(s[1..], seen || IsUpper(s[0]));
      SnakeSplit(p', s[1..]);
      Associative(SnakeCase(p), Step(s[0], seen), SnakeFrom(s[1..], seen || IsUpper(s[0])));
    }
  }

  /** The prefix-wise definition agrees with the transducer started in its
      initial state, so the model does not depend on how it is phrased. */
  lemma SnakeCaseIsTransducer(name: string)
    ensures SnakeCase(name) == SnakeFrom(name, false)
  {
    SnakeSplit("", name);
    assert "" + name == name;
  }

  /** "Field" followed by a capital X becomes "field_x": the first capital
      gets no underscore, the second one does. */
  lemma SnakeCaseField(c: char)
    requires IsUpper(c)
    ensures SnakeCase("Field" + [c]) == "field_" + [LowerChar(c)]
  {
    SnakeCaseIsTransducer("Field" + [c]);
    assert [c][1..] == "";
    assert SnakeFrom([c], true) == Step(c, true) + SnakeFrom("", true);
    assert ("d" + [c])[1..] == [c];
    assert SnakeFrom("d" + [c], true) == Step('d', true) + SnakeFrom([c], true);
    assert ("ld" + [c])[1..] == "d" + [c];
    assert SnakeFrom("ld" + [c], true) == Step('l', true) + SnakeFrom("d" + [c], true);
    assert ("eld" + [c])[1..] == "ld" + [c];
    assert SnakeFrom("eld" + [c], true) == Step('e', true) + SnakeFrom("ld" + [c], true);
    assert ("ield" + [c])[1..] == "eld" + [c];
    assert SnakeFrom("ield" + [c], true) == Step('i', true) + SnakeFrom("eld" + [c], true);
    assert ("Field" + [c])[1..] == "ield" + [c];
    assert SnakeFrom("Field" + [c], false) == Step('F', false) + SnakeFrom("ield" + [c], true);
  }

  /** A name without capital letters counts none. */
  lemma {:induction false} CountUpperNone(s: string)
    requires forall i :: 0 <= i < |s| ==> !IsUpper(s[i])
    ensures CountUpper(s) == 0
    decreases |s|
  {
    if s != [] {
      CountUpperNone(s[..|s| - 1]);
    }
  }

  /** The first capital letter met gets no underscore, even when it is not
      the first character: "fooB" becomes "foob". */
  lemma SnakeCaseFirstCapital(p: string, c: char)
    requires forall i :: 0 <= i < |p| ==> !IsUpper(p[i])
    requires IsUpper(c)
    ensures SnakeCase(p + [c]) == p + [LowerChar(c)]
  {
    assert (p + [c])[..|p|] == p;
    CountUpperNone(p);
    SnakeCaseNoUpper(p);
  }

  /** A name with a single capital letter, wherever it stands, is only
      lower-cased: "fooBar" becomes "foobar". */
  lemma {:induction false} SnakeCaseOneCapital(p: string, c: char, q: string)
    requires forall i :: 0 <= i < |p| ==> !IsUpper(p[i])
    requires IsUpper(c)
    requires forall i :: 0 <= i < |q| ==> !IsUpper(q[i])
    ensures SnakeCase(p + [c] + q) == p + [LowerChar(c)] + q
    decreases |q|
  {
    if q == [] {
      assert p + [c] + q == p + [c];
      SnakeCaseFirstCapital(p, c);
    } else {
      var q' := q[..|q| - 1];
      var d := q[|q| - 1];
      var name := p + [c] + q;
      assert name[..|name| - 1] == p + [c] + q';
      assert name[|name| - 1] == d;
      SnakeCaseOneCapital(p, c, q');
      assert SnakeCase(name) == SnakeCase(p + [c] + q') + [d];
      assert q == q' + [d];
    }
  }

  /** "ID" becomes "i_d": every capital after the first gets an underscore. */
  lemma SnakeCaseID()
    ensures SnakeCase("ID") == "i_d"
  {
    assert SnakeFrom("ID", false) == "i_d";
    SnakeCaseIsTransducer("ID");
  }
}
