/** Delimited strings: the `"\n"`-joined translation query and the
    `&`-separated form body of the provider request are both read and
    written through these two functions. */
module Text {

  /** The parts with one `d` between neighbours and none at the ends. */
  function Join(parts: seq<string>, d: char): (s: string)
    ensures |parts| == 1 ==> s == parts[0]
    ensures |parts| == 0 ==> s == ""
    decreases |parts|
  {
    if |parts| == 0 then ""
    else if |parts| == 1 then parts[0]
    else parts[0] + [d] + Join(parts[1..], d)
  }

  /** The maximal `d`-free pieces of `s`, left to right; an empty string is
      one empty piece, so there is always at least one. */
  function Split(s: string, d: char): (parts: seq<string>)
    ensures |parts| > 0
    ensures forall i :: 0 <= i < |parts| ==> d !in parts[i]
    decreases |s|
  {
    if |s| == 0 then [""]
    else
      var rest := Split(s[1..], d);
      if s[0] == d then [""] + rest
      else [[s[0]] + rest[0]] + rest[1..]
  }

  /** Joining the pieces back restores the string. */
  lemma {:induction false} JoinSplit(s: string, d: char)
    ensures Join(Split(s, d), d) == s
    decreases |s|
  {
    if |s| > 0 {
      var rest := Split(s[1..], d);
      JoinSplit(s[1..], d);
      if s[0] == d {
        assert Split(s, d) == [""] + rest;
        assert ([""] + rest)[1..] == rest;
        assert Join(Split(s, d), d) == "" + [d] + Join(rest, d);
        assert [s[0]] + s[1..] == s;
      } else {
        JoinCons(s[0], rest, d);
        assert [s[0]] + s[1..] == s;
      }
    }
  }

  /** Prepending a character to the first piece prepends it to the join. */
  lemma JoinCons(c: char, parts: seq<string>, d: char)
    requires |parts| > 0
    ensures Join([[c] + parts[0]] + parts[1..], d) == [c] + Join(parts, d)
  {
    var ps := [[c] + parts[0]] + parts[1..];
    assert ps[1..] == parts[1..];
    if |parts| > 1 {
      assert Join(ps, d) == [c] + parts[0] + [d] + Join(parts[1..], d);
    }
  }

  /** Splitting pieces that hold no delimiter gives them back. */
  lemma {:induction false} SplitJoin(parts: seq<string>, d: char)
    requires |parts| > 0
    requires forall i :: 0 <= i < |parts| ==> d !in parts[i]
    ensures Split(Join(parts, d), d) == parts
    decreases |parts|
  {
    if |parts| == 1 {
      SplitPlain(parts[0], d);
    } else {
      SplitJoin(parts[1..], d);
      SplitAt(parts[0], Join(parts[1..], d), d);
      assert [parts[0]] + parts[1..] == parts;
    }
  }

  /** A string without the delimiter is a single piece. */
  lemma {:induction false} SplitPlain(a: string, d: char)
    requires d !in a
    ensures Split(a, d) == [a]
    decreases |a|
  {
    if |a| > 0 {
      SplitPlain(a[1..], d);
      assert [a[0]] + a[1..] == a;
    }
  }

  /** The first delimiter ends the first piece. */
  lemma {:induction false} SplitAt(a: string, b: string, d: char)
    requires d !in a
    ensures Split(a + [d] + b, d) == [a] + Split(b, d)
    decreases |a|
  {
    var s := a + [d] + b;
    if |a| == 0 {
      assert s[1..] == b;
    } else {
      assert s[1..] == a[1..] + [d] + b;
      SplitAt(a[1..], b, d);
      assert [a[0]] + a[1..] == a;
    }
  }
}
