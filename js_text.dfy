/** The JavaScript string built-ins the bot relies on: `String.prototype.trim`,
    `String.prototype.split` with a one-character separator and
    `Array.prototype.join`, on strings of Unicode scalar values. */
module JsText {

  /** The characters `trim` removes: ECMAScript WhiteSpace (tab, vertical tab,
      form feed, space, no-break space, the byte order mark and every space
      separator of Unicode category Zs) and LineTerminator (line feed,
      carriage return, line and paragraph separator). */
  predicate IsJsWhitespace(c: char)
  {
    c == '\t' || c == '\n' || c == '\U{000B}' || c == '\U{000C}' || c == '\r' || c == ' '
    || c == '\U{00A0}' || c == '\U{1680}' || ('\U{2000}' <= c <= '\U{200A}')
    || c == '\U{2028}' || c == '\U{2029}' || c == '\U{202F}' || c == '\U{205F}'
    || c == '\U{3000}' || c == '\U{FEFF}'
  }

  predicate AllWhitespace(s: string)
  {
    forall i :: 0 <= i < |s| ==> IsJsWhitespace(s[i])
  }

  /** Leading whitespace removed: the longest suffix of `s` that does not start
      with whitespace, everything cut off being whitespace. */
  function TrimStart(s: string): (r: string)
    ensures |r| <= |s| && r == s[|s| - |r|..]
    ensures AllWhitespace(s[..|s| - |r|])
    ensures r != [] ==> !IsJsWhitespace(r[0])
  {
    if s != [] && IsJsWhitespace(s[0]) then
      var r := TrimStart(s[1..]);
      assert s[..|s| - |r|] == [s[0]] + s[1..][..|s| - 1 - |r|];
      r
    else
      s
  }

  /** Trailing whitespace removed: the longest prefix of `s` that does not end
      with whitespace, everything cut off being whitespace. */
  function TrimEnd(s: string): (r: string)
    ensures |r| <= |s| && r == s[..|r|]
    ensures AllWhitespace(s[|r|..])
    ensures r != [] ==> !IsJsWhitespace(r[|r| - 1])
  {
    if s != [] && IsJsWhitespace(s[|s| - 1]) then
      var r := TrimEnd(s[..|s| - 1]);
      assert s[|r|..] == s[..|s| - 1][|r|..] + [s[|s| - 1]];
      r
    else
      s
  }

  /** `s[a..b]` leaves out only whitespace of `s`. */
  predicate CutsOnlyWhitespace(s: string, a: int, b: int)
  {
    0 <= a <= b <= |s| && AllWhitespace(s[..a]) && AllWhitespace(s[b..])
  }

  /** `s.trim()`: a slice of `s` with only whitespace cut off at either end;
      empty exactly when every character of `s` is whitespace, and otherwise
      neither starting nor ending with whitespace. */
  function Trim(s: string): (r: string)
    ensures exists a, b :: CutsOnlyWhitespace(s, a, b) && r == s[a..b]
    ensures r == [] <==> AllWhitespace(s)
    ensures r != [] ==> !IsJsWhitespace(r[0]) && !IsJsWhitespace(r[|r| - 1])
    ensures |r| <= |s|
  {
    var t := TrimStart(s);
    var r := TrimEnd(t);
    assert r == [] ==> s == s[..|s| - |t|] + t[|r|..];
    assert AllWhitespace(s) && r != [] ==> t[0] == s[|s| - |t|];
    var a, b := |s| - |t|, |s| - |t| + |r|;
    assert s[b..] == t[|r|..];
    assert CutsOnlyWhitespace(s, a, b) && r == s[a..b];
    r
  }

  /** `s.split(sep)` for a one-character separator: the pieces between
      separators, at least one, none holding the separator. */
  function Split(s: string, sep: char): (r: seq<string>)
    ensures |r| >= 1
    ensures forall i :: 0 <= i < |r| ==> sep !in r[i]
  {
    if s == [] then [""]
    else
      var rest := Split(s[1..], sep);
      if s[0] == sep then [""] + rest
      else [[s[0]] + rest[0]] + rest[1..]
  }

  /** `xs.join(sep)`: empty for no elements, otherwise it starts with the
      first element. */
  function Join(xs: seq<string>, sep: string): (r: string)
    ensures xs == [] ==> r == ""
    ensures xs != [] ==> |xs[0]| <= |r| && r[..|xs[0]|] == xs[0]
  {
    if |xs| == 0 then ""
    else if |xs| == 1 then xs[0]
    else xs[0] + sep + Join(xs[1..], sep)
  }

  /** Joining the pieces of a split with the same separator gives back the
      original string. */
  lemma {:induction false} JoinSplit(s: string, sep: char)
    ensures Join(Split(s, sep), [sep]) == s
  {
    if s != [] {
      var rest := Split(s[1..], sep);
      JoinSplit(s[1..], sep);
      var r := Split(s, sep);
      if s[0] == sep {
        JoinCons("", rest, [sep]);
        assert r == [""] + rest;
      } else {
        JoinHead(s[0], rest, [sep]);
        assert r == [[s[0]] + rest[0]] + rest[1..];
      }
    }
  }

  /** A non-empty join ends with the last element. */
  lemma {:induction false} JoinEndsWithLast(xs: seq<string>, sep: string)
    requires xs != []
    ensures var r, last := Join(xs, sep), xs[|xs| - 1];
      |last| <= |r| && r[|r| - |last|..] == last
  {
    if |xs| > 1 {
      JoinEndsWithLast(xs[1..], sep);
      assert xs[1..][|xs| - 2] == xs[|xs| - 1];
    }
  }

  /** Joining with one more element in front. */
  lemma JoinCons(x: string, xs: seq<string>, sep: string)
    requires xs != []
    ensures Join([x] + xs, sep) == x + sep + Join(xs, sep)
  {
    assert ([x] + xs)[1..] == xs;
  }

  /** Joining with a character put in front of the first element. */
  lemma JoinHead(c: char, xs: seq<string>, sep: string)
    requires xs != []
    ensures Join([[c] + xs[0]] + xs[1..], sep) == [c] + Join(xs, sep)
  {
    var ys := [[c] + xs[0]] + xs[1..];
    assert ys[1..] == xs[1..];
    if |xs| > 1 {
      assert Join(xs, sep) == xs[0] + sep + Join(xs[1..], sep);
    }
  }

  lemma {:induction false} SplitWithoutSeparator(a: string, sep: char)
    requires sep !in a
    ensures Split(a, sep) == [a]
  {
    if a != [] {
      SplitWithoutSeparator(a[1..], sep);
      assert a[0] != sep;
      assert [a[0]] + a[1..] == a;
    }
  }

  lemma {:induction false} SplitAfterPiece(a: string, b: string, sep: char)
    requires sep !in a
    ensures Split(a + [sep] + b, sep) == [a] + Split(b, sep)
  {
    var s := a + [sep] + b;
    if a == [] {
      assert s[1..] == b;
    } else {
      assert s[1..] == a[1..] + [sep] + b;
      SplitAfterPiece(a[1..], b, sep);
      assert [a[0]] + a[1..] == a;
    }
  }

  /** Splitting a join of separator-free pieces gives back the pieces. */
  lemma {:induction false} SplitJoin(xs: seq<string>, sep: char)
    requires |xs| >= 1
    requires forall i :: 0 <= i < |xs| ==> sep !in xs[i]
    ensures Split(Join(xs, [sep]), sep) == xs
  {
    if |xs| == 1 {
      SplitWithoutSeparator(xs[0], sep);
    } else {
      SplitJoin(xs[1..], sep);
      SplitAfterPiece(xs[0], Join(xs[1..], [sep]), sep);
      assert [xs[0]] + xs[1..] == xs;
    }
  }

  /** `t` occurs in `s` starting at index `k`. */
  predicate OccursAt(t: string, s: string, k: int)
  {
    0 <= k && k + |t| <= |s| && s[k..k + |t|] == t
  }

  /** `s.includes(t)`. */
  ghost predicate Includes(s: string, t: string)
  {
    exists k :: OccursAt(t, s, k)
  }

  /** Text placed around a string keeps everything the string includes. */
  lemma IncludesInContext(pre: string, s: string, post: string, t: string)
    requires Includes(s, t)
    ensures Includes(pre + s + post, t)
  {
    var k :| OccursAt(t, s, k);
    var whole := pre + s + post;
    assert whole[|pre| + k..|pre| + k + |t|] == s[k..k + |t|];
    assert OccursAt(t, whole, |pre| + k);
  }

  /** Every element of a joined list occurs in the joined string. */
  lemma {:induction false} JoinIncludesEach(xs: seq<string>, sep: string, i: int)
    requires 0 <= i < |xs|
    ensures Includes(Join(xs, sep), xs[i])
  {
    if |xs| == 1 || i == 0 {
      assert Join(xs, sep)[0..|xs[0]|] == xs[0];
      assert OccursAt(xs[0], Join(xs, sep), 0);
    } else {
      JoinIncludesEach(xs[1..], sep, i - 1);
      IncludesInContext(xs[0] + sep, Join(xs[1..], sep), "", xs[i]);
      assert xs[0] + sep + Join(xs[1..], sep) + "" == Join(xs, sep);
    }
  }
}
