/** java.lang.String.split(Pattern.quote(sep)) for a one-character separator, as
    the sender agent uses it to break a single start-up argument in two. */
module JavaText {

  /** The fields joined back together with the separator between them. */
  function Join(fields: seq<string>, sep: char): string
    requires |fields| >= 1
    decreases |fields|
  {
    if |fields| == 1 then fields[0] else fields[0] + [sep] + Join(fields[1..], sep)
  }

  /** Every substring between separators, empty ones included. */
  function Fields(s: string, sep: char): (r: seq<string>)
    ensures |r| >= 1
    ensures forall i :: 0 <= i < |r| ==> sep !in r[i]
    ensures Join(r, sep) == s
    decreases |s|
  {
    if s == [] then [[]]
    else
      var rest := Fields(s[1..], sep);
      if s[0] == sep then
        assert ([[]] + rest)[1..] == rest;
        [[]] + rest
      else
        var r := [[s[0]] + rest[0]] + rest[1..];
        assert r[1..] == rest[1..];
        assert |rest| > 1 ==> Join(rest, sep) == rest[0] + [sep] + Join(rest[1..], sep);
        assert s == [s[0]] + s[1..];
        r
  }

  /** The result with its trailing empty strings removed. */
  function DropTrailingEmpty(r: seq<string>): (t: seq<string>)
    ensures |t| <= |r| && t == r[..|t|]
    ensures forall i :: |t| <= i < |r| ==> r[i] == []
    ensures t == [] || t[|t| - 1] != []
    decreases |r|
  {
    if r == [] then []
    else if r[|r| - 1] == [] then DropTrailingEmpty(r[..|r| - 1])
    else r
  }

  /** String.split with limit 0: the input itself when the separator does not
      occur; otherwise all fields, trailing empty ones dropped. */
  function Split(s: string, sep: char): (r: seq<string>)
    ensures forall i :: 0 <= i < |r| ==> sep !in r[i]
    ensures sep !in s ==> r == [s]
  {
    if sep !in s then [s] else DropTrailingEmpty(Fields(s, sep))
  }

  lemma {:induction false} FieldsWithoutSeparator(x: string, sep: char)
    requires sep !in x
    ensures Fields(x, sep) == [x]
    decreases |x|
  {
    if x != [] {
      FieldsWithoutSeparator(x[1..], sep);
      assert x == [x[0]] + x[1..];
    }
  }

  lemma {:induction false} FieldsAfterSeparator(x: string, sep: char, tail: string)
    requires sep !in x
    ensures Fields(x + [sep] + tail, sep) == [x] + Fields(tail, sep)
    decreases |x|
  {
    var s := x + [sep] + tail;
    if x == [] {
      assert s[1..] == tail;
    } else {
      assert s[1..] == x[1..] + [sep] + tail;
      FieldsAfterSeparator(x[1..], sep, tail);
      assert x == [x[0]] + x[1..];
    }
  }

  /** Fields undoes Join whenever no field holds the separator. */
  lemma {:induction false} FieldsOfJoin(fields: seq<string>, sep: char)
    requires |fields| >= 1
    requires forall i :: 0 <= i < |fields| ==> sep !in fields[i]
    ensures Fields(Join(fields, sep), sep) == fields
    decreases |fields|
  {
    if |fields| == 1 {
      FieldsWithoutSeparator(fields[0], sep);
    } else {
      FieldsOfJoin(fields[1..], sep);
      FieldsAfterSeparator(fields[0], sep, Join(fields[1..], sep));
      assert fields == [fields[0]] + fields[1..];
    }
  }

  /** "x<sep>y" splits into exactly [x, y] when neither holds the separator and y is not empty. */
  lemma SplitPair(x: string, y: string, sep: char)
    requires sep !in x && sep !in y && y != []
    ensures Split(x + [sep] + y, sep) == [x, y]
  {
    var s := x + [sep] + y;
    assert s[|x|] == sep;
    FieldsAfterSeparator(x, sep, y);
    FieldsWithoutSeparator(y, sep);
  }

  /** A trailing separator yields a single field (none when x is empty): Java drops the empty last field. */
  lemma SplitTrailingSeparator(x: string, sep: char)
    requires sep !in x
    ensures Split(x + [sep], sep) == if x == [] then [] else [x]
  {
    var s := x + [sep];
    assert s[|x|] == sep;
    assert s == x + [sep] + [];
    FieldsAfterSeparator(x, sep, []);
    assert Fields(s, sep) == [x, []];
    assert [x, []][..1] == [x];
  }
}
