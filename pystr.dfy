/**
 * The parts of Python's str that the core relies on: str.isspace() (which is also what
 * `\s` matches in a str pattern and what an argument-less str.strip() removes), the ASCII
 * word characters of `\w`, and str.strip().
 */
module PyStr {

  /** Python's str.isspace() on one character. */
  predicate IsSpace(c: char) {
    || ('\U{9}' <= c <= '\U{D}')
    || ('\U{1C}' <= c <= '\U{20}')
    || c == '\U{85}' || c == '\U{A0}' || c == '\U{1680}'
    || ('\U{2000}' <= c <= '\U{200A}')
    || c == '\U{2028}' || c == '\U{2029}' || c == '\U{202F}' || c == '\U{205F}'
    || c == '\U{3000}'
  }

  predicate NoSpace(s: string) {
    forall k :: 0 <= k < |s| ==> !IsSpace(s[k])
  }

  predicate AllSpace(s: string) {
    forall k :: 0 <= k < |s| ==> IsSpace(s[k])
  }

  /** A character matched by `\w` (ASCII letters, digits and the underscore). */
  predicate IsWordChar(c: char) {
    ('a' <= c <= 'z') || ('A' <= c <= 'Z') || ('0' <= c <= '9') || c == '_'
  }

  /** `re.search(r"\w+", s)` succeeds. */
  predicate HasWordChar(s: string) {
    exists k :: 0 <= k < |s| && IsWordChar(s[k])
  }

  /** str.lstrip(): drops the leading whitespace and nothing else. */
  function StripLeft(s: string): (r: string)
    ensures |r| <= |s|
    ensures r == [] || !IsSpace(r[0])
    ensures s == [] || !IsSpace(s[0]) ==> r == s
  {
    if s != [] && IsSpace(s[0]) then StripLeft(s[1..]) else s
  }

  /** What lstrip() keeps is a suffix, and what it drops is whitespace. */
  lemma {:induction false} StripLeftSplit(s: string)
    ensures var r := StripLeft(s); r == s[|s| - |r|..] && AllSpace(s[..|s| - |r|])
    decreases |s|
  {
    if s != [] && IsSpace(s[0]) {
      StripLeftSplit(s[1..]);
      var r := StripLeft(s[1..]);
      assert s[1..][|s| - 1 - |r|..] == s[|s| - |r|..];
      assert s[..|s| - |r|] == [s[0]] + s[1..][..|s| - 1 - |r|];
    }
  }

  /** str.rstrip(): drops the trailing whitespace and nothing else. */
  function StripRight(s: string): (r: string)
    ensures |r| <= |s|
    ensures r == [] || !IsSpace(r[|r| - 1])
    ensures s == [] || !IsSpace(s[|s| - 1]) ==> r == s
  {
    if s != [] && IsSpace(s[|s| - 1]) then StripRight(s[..|s| - 1]) else s
  }

  /** What rstrip() keeps is a prefix, and what it drops is whitespace. */
  lemma {:induction false} StripRightSplit(s: string)
    ensures var r := StripRight(s); r == s[..|r|] && AllSpace(s[|r|..])
    decreases |s|
  {
    if s != [] && IsSpace(s[|s| - 1]) {
      StripRightSplit(s[..|s| - 1]);
      var r := StripRight(s[..|s| - 1]);
      assert s[..|s| - 1][..|r|] == s[..|r|];
      assert s[|r|..] == s[..|s| - 1][|r|..] + [s[|s| - 1]];
    }
  }

  /** str.strip(): drops the whitespace at both ends. */
  function Strip(s: string): (r: string)
    ensures |r| <= |s|
    ensures r == [] || (!IsSpace(r[0]) && !IsSpace(r[|r| - 1]))
  {
    var l := StripLeft(s);
    var r := StripRight(l);
    StripRightSplit(l);
    assert r != [] ==> r[0] == l[0];
    r
  }

  /**
   * What strip() keeps is the infix of s from its first to its last non-whitespace
   * character: everything cut off on either side is whitespace.
   */
  lemma StripInfix(s: string) returns (a: nat)
    ensures a + |Strip(s)| <= |s| && Strip(s) == s[a..a + |Strip(s)|]
    ensures AllSpace(s[..a]) && AllSpace(s[a + |Strip(s)|..])
  {
    var l := StripLeft(s);
    StripLeftSplit(s);
    StripRightSplit(l);
    a := |s| - |l|;
    PrefixOfSuffix(s, a, StripRight(l));
  }

  /** A prefix r of the suffix s[a..], followed there only by whitespace, is an infix of s. */
  lemma PrefixOfSuffix(s: string, a: nat, r: string)
    requires a <= |s| && |r| <= |s| - a
    requires r == s[a..][..|r|] && AllSpace(s[a..][|r|..])
    ensures r == s[a..a + |r|] && AllSpace(s[a + |r|..])
  {
    assert s[a..][|r|..] == s[a + |r|..];
  }

  lemma NoSpaceConcat(a: string, b: string)
    requires NoSpace(a) && NoSpace(b)
    ensures NoSpace(a + b)
  {
    assert forall k :: 0 <= k < |a + b| ==> (a + b)[k] == if k < |a| then a[k] else b[k - |a|];
  }

  lemma NoSpaceCons(c: char, s: string)
    requires !IsSpace(c) && NoSpace(s)
    ensures NoSpace([c] + s)
  {
    assert forall k :: 1 <= k < |[c] + s| ==> ([c] + s)[k] == s[k - 1];
  }

  /** A string that neither starts nor ends with whitespace is left as it is. */
  lemma StripEdges(s: string)
    requires s != [] && !IsSpace(s[0]) && !IsSpace(s[|s| - 1])
    ensures Strip(s) == s
  {
    assert StripLeft(s) == s;
  }

  /** A string without whitespace is left as it is. */
  lemma StripNoSpace(s: string)
    requires NoSpace(s)
    ensures Strip(s) == s
  {
    if s != [] {
      assert !IsSpace(s[0]) && !IsSpace(s[|s| - 1]);
    }
  }

  lemma {:induction false} StripLeftKeepsWord(s: string)
    requires HasWordChar(s)
    ensures HasWordChar(StripLeft(s))
    decreases |s|
  {
    if s != [] && IsSpace(s[0]) {
      var k :| 0 <= k < |s| && IsWordChar(s[k]);
      assert s[1..][k - 1] == s[k];
      StripLeftKeepsWord(s[1..]);
    }
  }

  lemma {:induction false} StripRightKeepsWord(s: string)
    requires HasWordChar(s)
    ensures HasWordChar(StripRight(s))
    decreases |s|
  {
    if s != [] && IsSpace(s[|s| - 1]) {
      var k :| 0 <= k < |s| && IsWordChar(s[k]);
      assert s[..|s| - 1][k] == s[k];
      StripRightKeepsWord(s[..|s| - 1]);
    }
  }

  /** Stripping never removes a word character, so such a line strips to a non-empty string. */
  lemma StripKeepsWord(s: string)
    requires HasWordChar(s)
    ensures HasWordChar(Strip(s)) && Strip(s) != []
  {
    StripLeftKeepsWord(s);
    StripRightKeepsWord(StripLeft(s));
  }
}
