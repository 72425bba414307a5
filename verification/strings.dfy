/** JavaScript's `String.prototype.split` with a one-character separator, and
    the two ways the editor reads its result: `[first] = s.split(c)` and
    `s.split(c).pop()`. */
module Strings {

  /** The pieces joined back together with the separator between them. */
  function Join(pieces: seq<string>, sep: char): string
  {
    if |pieces| == 0 then ""
    else if |pieces| == 1 then pieces[0]
    else pieces[0] + [sep] + Join(pieces[1..], sep)
  }

  /** `s.split(sep)`: the maximal separator-free pieces of `s`, in order. An
      empty string splits into one empty piece, so there is always a piece. */
  function Split(s: string, sep: char): (pieces: seq<string>)
    ensures |pieces| >= 1
    ensures forall i :: 0 <= i < |pieces| ==> sep !in pieces[i]
    ensures Join(pieces, sep) == s
    decreases |s|
  {
    if |s| == 0 then [""]
    else
      var rest := Split(s[1..], sep);
      if s[0] == sep then
        assert ([""] + rest)[1..] == rest;
        [""] + rest
      else
        var head := [s[0]] + rest[0];
        assert ([head] + rest[1..])[1..] == rest[1..];
        assert s == [s[0]] + s[1..];
        [head] + rest[1..]
  }

  function First(pieces: seq<string>): string
    requires |pieces| >= 1
  {
    pieces[0]
  }

  /** `Array.prototype.pop` on a non-empty array: its last element. */
  function Last(pieces: seq<string>): string
    requires |pieces| >= 1
  {
    pieces[|pieces| - 1]
  }

  /** The text of `s` before its first `sep`, or all of `s` when it has none. */
  function BeforeFirst(s: string, sep: char): string
  {
    First(Split(s, sep))
  }

  /** The text of `s` after its last `sep`, or all of `s` when it has none. */
  function AfterLast(s: string, sep: char): string
  {
    Last(Split(s, sep))
  }

  lemma {:induction false} JoinStartsWithFirst(pieces: seq<string>, sep: char)
    requires |pieces| >= 1
    ensures var j := Join(pieces, sep);
      && |pieces[0]| <= |j|
      && j[..|pieces[0]|] == pieces[0]
      && (|pieces| >= 2 ==> |pieces[0]| < |j| && j[|pieces[0]|] == sep)
      && (|pieces| == 1 ==> j == pieces[0])
  {
    if |pieces| >= 2 {
      var j := Join(pieces, sep);
      assert j == pieces[0] + [sep] + Join(pieces[1..], sep);
      assert j[..|pieces[0]|] == pieces[0];
    }
  }

  lemma {:induction false} JoinEndsWithLast(pieces: seq<string>, sep: char)
    requires |pieces| >= 1
    ensures var j := Join(pieces, sep); var e := Last(pieces);
      && |e| <= |j|
      && j[|j| - |e|..] == e
      && (|pieces| >= 2 ==> |e| < |j| && j[|j| - |e| - 1] == sep)
      && (|pieces| == 1 ==> j == e)
  {
    if |pieces| >= 2 {
      var tail := pieces[1..];
      JoinEndsWithLast(tail, sep);
      assert Last(tail) == Last(pieces);
      var j := Join(pieces, sep);
      var jt := Join(tail, sep);
      var e := Last(pieces);
      assert j == (pieces[0] + [sep]) + jt;
      assert j[|j| - |e|..] == jt[|jt| - |e|..];
      if |tail| >= 2 {
        assert j[|j| - |e| - 1] == jt[|jt| - |e| - 1];
      } else {
        assert jt == e;
        assert j[|j| - |e| - 1] == sep;
      }
    }
  }

  /** `s.split(sep)[0]` is the longest separator-free prefix of `s`: it is a
      prefix, holds no separator, and is either all of `s` or is followed by
      a separator. It is all of `s` exactly when `s` has no separator. */
  lemma BeforeFirstIsLongestPrefix(s: string, sep: char)
    ensures var f := BeforeFirst(s, sep);
      && |f| <= |s| && s[..|f|] == f
      && sep !in f
      && (|f| < |s| ==> s[|f|] == sep)
      && (|f| == |s| <==> sep !in s)
  {
    var pieces := Split(s, sep);
    JoinStartsWithFirst(pieces, sep);
    var f := BeforeFirst(s, sep);
    if |f| == |s| {
      assert f == s;
    } else {
      assert s[|f|] == sep;
    }
  }

  /** `s.split(sep).pop()` is the longest separator-free suffix of `s`: it is
      a suffix, holds no separator, and is either all of `s` or is preceded by
      a separator. It is all of `s` exactly when `s` has no separator. */
  lemma AfterLastIsLongestSuffix(s: string, sep: char)
    ensures var e := AfterLast(s, sep);
      && |e| <= |s| && s[|s| - |e|..] == e
      && sep !in e
      && (|e| < |s| ==> s[|s| - |e| - 1] == sep)
      && (|e| == |s| <==> sep !in s)
  {
    var pieces := Split(s, sep);
    JoinEndsWithLast(pieces, sep);
    var e := AfterLast(s, sep);
    if |e| == |s| {
      assert s[|s| - |e|..] == s;
    } else {
      assert s[|s| - |e| - 1] == sep;
    }
  }
}
