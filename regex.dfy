/**
 * The small fragment of Python's `re.search` that the core uses: patterns built from
 * literal characters, the unescaped `.` and `\d`, searched anywhere in the subject, with or
 * without re.IGNORECASE.
 */
module Regex {

  /** One pattern element: a literal character, `.` (anything but a newline), or `\d`. */
  datatype Atom = Lit(c: char) | AnyChar | Digit

  type Pattern = seq<Atom>

  /** A pattern written without metacharacters: every character stands for itself. */
  function Literal(src: string): Pattern {
    seq(|src|, k requires 0 <= k < |src| => Lit(src[k]))
  }

  /** A pattern whose `.` characters are left unescaped, so each one matches any character. */
  function Dotted(src: string): Pattern {
    seq(|src|, k requires 0 <= k < |src| => if src[k] == '.' then AnyChar else Lit(src[k]))
  }

  /**
   * The case folding re.IGNORECASE applies to a str subject: ASCII letters, plus the four
   * non-ASCII characters that Python treats as case variants of an ASCII letter
   * (LONG S, KELVIN SIGN, the dotted capital I and the dotless small i).
   */
  function Fold(c: char): char {
    if 'A' <= c <= 'Z' then (c as int + 32) as char
    else if c == '\U{17F}' then 's'
    else if c == '\U{212A}' then 'k'
    else if c == '\U{130}' || c == '\U{131}' then 'i'
    else c
  }

  predicate AtomMatches(a: Atom, c: char, ignoreCase: bool) {
    match a
    case Lit(p) => if ignoreCase then Fold(c) == Fold(p) else c == p
    case AnyChar => c != '\n'
    case Digit => '0' <= c <= '9'
  }

  /** Atoms k, k + 1, ... of p match the subject characters from i + k on. */
  predicate AtomsMatchFrom(p: Pattern, s: string, i: nat, k: nat, ignoreCase: bool)
    requires i + |p| <= |s|
    decreases |p| - k
  {
    k >= |p| || (AtomMatches(p[k], s[i + k], ignoreCase) && AtomsMatchFrom(p, s, i, k + 1, ignoreCase))
  }

  /** The pattern matches the subject starting at position i. */
  predicate MatchesAt(p: Pattern, s: string, i: nat, ignoreCase: bool) {
    i + |p| <= |s| && AtomsMatchFrom(p, s, i, 0, ignoreCase)
  }

  lemma {:induction false} AtomsMatchFromPointwise(p: Pattern, s: string, i: nat, k: nat, ignoreCase: bool)
    requires i + |p| <= |s|
    ensures AtomsMatchFrom(p, s, i, k, ignoreCase)
        <==> forall n :: k <= n < |p| ==> AtomMatches(p[n], s[i + n], ignoreCase)
    decreases |p| - k
  {
    if k < |p| {
      AtomsMatchFromPointwise(p, s, i, k + 1, ignoreCase);
    }
  }

  /** The atom-by-atom reading of a match: atom k matches subject character i + k. */
  lemma AtomsMatchPointwise(p: Pattern, s: string, i: nat, ignoreCase: bool)
    requires i + |p| <= |s|
    ensures MatchesAt(p, s, i, ignoreCase)
        <==> forall k :: 0 <= k < |p| ==> AtomMatches(p[k], s[i + k], ignoreCase)
  {
    AtomsMatchFromPointwise(p, s, i, 0, ignoreCase);
  }

  /** A literal pattern matches exactly where the source text itself occurs. */
  lemma LiteralMatches(src: string, s: string, i: nat)
    requires i + |src| <= |s|
    ensures |Literal(src)| == |src|
    ensures MatchesAt(Literal(src), s, i, false) <==> s[i..i + |src|] == src
  {
    AtomsMatchPointwise(Literal(src), s, i, false);
    var sub := s[i..i + |src|];
    assert forall k :: 0 <= k < |src| ==> sub[k] == s[i + k];
    if MatchesAt(Literal(src), s, i, false) {
      forall k | 0 <= k < |src|
        ensures sub[k] == src[k]
      {
        assert AtomMatches(Literal(src)[k], s[i + k], false);
      }
    }
  }

  /** A dotted pattern matches the text it was written from, with or without IGNORECASE. */
  lemma DottedMatchesSource(src: string, s: string, i: nat, ignoreCase: bool)
    requires i + |src| <= |s| && s[i..i + |src|] == src
    ensures MatchesAt(Dotted(src), s, i, ignoreCase)
  {
    AtomsMatchPointwise(Dotted(src), s, i, ignoreCase);
    assert forall k :: 0 <= k < |src| ==> s[i + k] == s[i..i + |src|][k] == src[k];
  }

  /** The leftmost-first scan of `re.search` from position i on. */
  function SearchFrom(p: Pattern, s: string, i: nat, ignoreCase: bool): bool
    decreases |s| - i
  {
    if i + |p| > |s| then false
    else MatchesAt(p, s, i, ignoreCase) || SearchFrom(p, s, i + 1, ignoreCase)
  }

  /** `re.search(p, s)` returns a match object. */
  function Search(p: Pattern, s: string, ignoreCase: bool): bool {
    SearchFrom(p, s, 0, ignoreCase)
  }

  /** The scan from i finds a match exactly when the pattern occurs at some j >= i. */
  lemma {:induction false} SearchFromFound(p: Pattern, s: string, i: nat, ignoreCase: bool)
    ensures SearchFrom(p, s, i, ignoreCase) <==> exists j :: i <= j && MatchesAt(p, s, j, ignoreCase)
    decreases |s| - i
  {
    if i + |p| <= |s| {
      SearchFromFound(p, s, i + 1, ignoreCase);
      if exists j :: i <= j && MatchesAt(p, s, j, ignoreCase) {
        var j :| i <= j && MatchesAt(p, s, j, ignoreCase);
        assert j == i || (i + 1 <= j && MatchesAt(p, s, j, ignoreCase));
      }
    }
  }

  /** Search succeeds exactly when the pattern occurs somewhere in the subject. */
  lemma SearchFound(p: Pattern, s: string, ignoreCase: bool)
    ensures Search(p, s, ignoreCase) <==> exists j :: MatchesAt(p, s, j, ignoreCase)
  {
    SearchFromFound(p, s, 0, ignoreCase);
  }

  /**
   * A search for an alternation `(p1|p2|...)`, or for several patterns joined by `or`:
   * some alternative occurs somewhere in the subject.
   */
  predicate SearchAny(alts: seq<Pattern>, s: string, ignoreCase: bool) {
    exists j :: 0 <= j < |alts| && Search(alts[j], s, ignoreCase)
  }

  lemma SearchAnyOne(p: Pattern, s: string, ignoreCase: bool)
    ensures SearchAny([p], s, ignoreCase) == Search(p, s, ignoreCase)
  {
    assert [p][0] == p;
  }

  lemma SearchAnyTwo(p: Pattern, q: Pattern, s: string, ignoreCase: bool)
    ensures SearchAny([p, q], s, ignoreCase) == (Search(p, s, ignoreCase) || Search(q, s, ignoreCase))
  {
    assert [p, q][0] == p && [p, q][1] == q;
  }

  predicate IsDigit(c: char) {
    '0' <= c <= '9'
  }

  /** The subject holds no decimal digit from position i on. */
  predicate NoDigitsFrom(s: string, i: nat)
    decreases |s| - i
  {
    i >= |s| || (!IsDigit(s[i]) && NoDigitsFrom(s, i + 1))
  }

  /** The subject is made of digits and dots from position i on, like a dotted IPv4 address. */
  predicate DigitsAndDotsFrom(s: string, i: nat)
    decreases |s| - i
  {
    i >= |s| || ((IsDigit(s[i]) || s[i] == '.') && DigitsAndDotsFrom(s, i + 1))
  }

  lemma {:induction false} NoDigitsAt(s: string, i: nat, j: nat)
    requires NoDigitsFrom(s, i) && i <= j < |s|
    ensures !IsDigit(s[j])
    decreases j - i
  {
    if i < j {
      NoDigitsAt(s, i + 1, j);
    }
  }

  lemma {:induction false} DigitsAndDotsAt(s: string, i: nat, j: nat)
    requires DigitsAndDotsFrom(s, i) && i <= j < |s|
    ensures IsDigit(s[j]) || s[j] == '.'
    decreases j - i
  {
    if i < j {
      DigitsAndDotsAt(s, i + 1, j);
    }
  }

  /** A pattern with an atom that only matches digits never matches a subject without digits. */
  lemma DigitAtomNeedsDigit(p: Pattern, s: string, ignoreCase: bool, m: nat)
    requires m < |p| && (p[m] == Digit || (p[m].Lit? && IsDigit(p[m].c)))
    requires NoDigitsFrom(s, 0)
    ensures !Search(p, s, ignoreCase)
  {
    SearchFound(p, s, ignoreCase);
    if exists j :: MatchesAt(p, s, j, ignoreCase) {
      var j: nat :| MatchesAt(p, s, j, ignoreCase);
      AtomsMatchPointwise(p, s, j, ignoreCase);
      assert AtomMatches(p[m], s[j + m], ignoreCase);
      NoDigitsAt(s, 0, j + m);
      assert false;
    }
  }

  /**
   * A pattern with a lower-case ASCII letter never matches a subject made of digits and dots,
   * even ignoring case.
   */
  lemma LetterAtomNeedsLetter(p: Pattern, s: string, ignoreCase: bool, m: nat)
    requires m < |p| && p[m].Lit? && 'a' <= p[m].c <= 'z'
    requires DigitsAndDotsFrom(s, 0)
    ensures !Search(p, s, ignoreCase)
  {
    SearchFound(p, s, ignoreCase);
    if exists j :: MatchesAt(p, s, j, ignoreCase) {
      var j: nat :| MatchesAt(p, s, j, ignoreCase);
      AtomsMatchPointwise(p, s, j, ignoreCase);
      assert AtomMatches(p[m], s[j + m], ignoreCase);
      DigitsAndDotsAt(s, 0, j + m);
      assert false;
    }
  }
}
