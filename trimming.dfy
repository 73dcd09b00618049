/** The string trimming that every validation rule of the application rests on:
    JavaScript's String.prototype.trim, which removes leading and trailing
    white space and line terminators. */
module Trimming {

  /** The characters ECMAScript counts as WhiteSpace or LineTerminator:
      TAB, LF, VT, FF, CR, the space separators (category Zs), LS, PS and the
      zero-width no-break space. */
  predicate IsWhitespace(c: char) {
    || c == '\t' || c == '\n' || c == '\U{000B}' || c == '\U{000C}' || c == '\r'
    || c == ' ' || c == '\U{00A0}' || c == '\U{1680}'
    || ('\U{2000}' <= c <= '\U{200A}')
    || c == '\U{2028}' || c == '\U{2029}' || c == '\U{202F}' || c == '\U{205F}'
    || c == '\U{3000}' || c == '\U{FEFF}'
  }

  predicate AllWhitespace(s: string) {
    forall i :: 0 <= i < |s| ==> IsWhitespace(s[i])
  }

  /** Drops the leading white space: the result is the longest suffix of `s`
      that does not start with white space. */
  function TrimStart(s: string): (r: string)
    ensures |r| <= |s| && r == s[|s| - |r|..]
    ensures AllWhitespace(s[..|s| - |r|])
    ensures r == [] || !IsWhitespace(r[0])
  {
    if |s| > 0 && IsWhitespace(s[0]) then
      var r := TrimStart(s[1..]);
      assert s[1..][..|s| - 1 - |r|] == s[1..|s| - |r|];
      r
    else
      s
  }

  /** Drops the trailing white space: the result is the longest prefix of `s`
      that does not end with white space. */
  function TrimEnd(s: string): (r: string)
    ensures |r| <= |s| && r == s[..|r|]
    ensures AllWhitespace(s[|r|..])
    ensures r == [] || !IsWhitespace(r[|r| - 1])
  {
    if |s| > 0 && IsWhitespace(s[|s| - 1]) then
      var front := s[..|s| - 1];
      var r := TrimEnd(front);
      assert forall k :: 0 <= k < |s| - 1 - |r| ==> s[|r|..][k] == front[|r|..][k];
      r
    else
      s
  }

  /** `s.trim()`: the part of `s` between its leading and its trailing white space. */
  function Trim(s: string): (r: string)
    ensures |r| <= |s|
    ensures r == [] || (!IsWhitespace(r[0]) && !IsWhitespace(r[|r| - 1]))
    ensures r == [] <==> AllWhitespace(s)
  {
    TrimEmptyIffAllWhitespace(s);
    var r := TrimEnd(TrimStart(s));
    assert r != [] ==> r[0] == TrimStart(s)[0];
    r
  }

  /** The trimmed text is a slice of `s` with only white space before and
      after it. */
  lemma TrimIsSlice(s: string)
    ensures exists i, j :: 0 <= i <= j <= |s| && Trim(s) == s[i..j] && AllWhitespace(s[..i]) && AllWhitespace(s[j..])
  {
    var front := TrimStart(s);
    var r := TrimEnd(front);
    var i := |s| - |front|;
    var j := i + |r|;
    assert Trim(s) == s[i..j] && AllWhitespace(s[j..]) by {
      SuffixThenPrefix(s, front, r);
    }
  }

  /** Taking a prefix `r` of a suffix `front` of `s` leaves a slice of `s`,
      and the rest of `front` is the rest of `s`. */
  lemma SuffixThenPrefix(s: string, front: string, r: string)
    requires |front| <= |s| && front == s[|s| - |front|..]
    requires |r| <= |front| && r == front[..|r|]
    ensures r == s[|s| - |front|..|s| - |front| + |r|]
    ensures front[|r|..] == s[|s| - |front| + |r|..]
  {
  }

  lemma TrimEmptyIffAllWhitespace(s: string)
    ensures TrimEnd(TrimStart(s)) == [] <==> AllWhitespace(s)
  {
    var front := TrimStart(s);
    var k := |s| - |front|;
    if TrimEnd(front) == [] {
      // `front` is all white space and does not start with it, so it is empty.
      assert front == front[0..];
      assert s == s[..k];
    }
  }

  /** `s.trim() === ''`: the test both the store and the forms use to reject input. */
  predicate IsBlank(s: string)
    ensures IsBlank(s) <==> AllWhitespace(s)
  {
    Trim(s) == []
  }

  /** Trimming twice is trimming once. */
  lemma TrimIdempotent(s: string)
    ensures Trim(Trim(s)) == Trim(s)
  {
    var t := Trim(s);
    if t != [] {
      assert TrimStart(t) == t;
      assert TrimEnd(t) == t;
    }
  }
}
