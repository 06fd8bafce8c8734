/** The parts of Rust's `str` API the modelled code leans on. */
module Text {
  /** `char::is_whitespace`: the Unicode White_Space property. */
  predicate IsWhitespace(c: char) {
    || '\U{9}' <= c <= '\U{d}'
    || c == ' '
    || c == '\U{85}'
    || c == '\U{a0}'
    || c == '\U{1680}'
    || '\U{2000}' <= c <= '\U{200a}'
    || c == '\U{2028}'
    || c == '\U{2029}'
    || c == '\U{202f}'
    || c == '\U{205f}'
    || c == '\U{3000}'
  }

  /** What `char::is_alphanumeric` says is a Unicode table; every result holds for any such table. */
  type CharClass = char -> bool

  predicate StartsWith(s: string, prefix: string) {
    prefix <= s
  }

  predicate EndsWith(s: string, suffix: string) {
    |suffix| <= |s| && s[|s| - |suffix|..] == suffix
  }

  predicate MatchesAt(s: string, i: nat, word: string) {
    i + |word| <= |s| && s[i..i + |word|] == word
  }

  predicate Contains(s: string, word: string) {
    exists i | 0 <= i <= |s| :: MatchesAt(s, i, word)
  }

  function LeadingSpace(s: string): string {
    if s != "" && IsWhitespace(s[0]) then [s[0]] + LeadingSpace(s[1..]) else ""
  }

  function TrimStart(s: string): (r: string)
    ensures r == "" || !IsWhitespace(r[0])
  {
    if s != "" && IsWhitespace(s[0]) then TrimStart(s[1..]) else s
  }

  function TrimEnd(s: string): (r: string)
    ensures r <= s
    ensures r == "" || !IsWhitespace(r[|r| - 1])
  {
    if s != "" && IsWhitespace(s[|s| - 1]) then TrimEnd(s[..|s| - 1]) else s
  }

  function Trim(s: string): (r: string)
    ensures r == "" || (!IsWhitespace(r[0]) && !IsWhitespace(r[|r| - 1]))
  {
    TrimEnd(TrimStart(s))
  }

  lemma TrimIdentity(s: string)
    requires s == "" || (!IsWhitespace(s[0]) && !IsWhitespace(s[|s| - 1]))
    ensures Trim(s) == s && TrimStart(s) == s
  {
  }

  lemma TrimIdempotent(s: string)
    ensures Trim(Trim(s)) == Trim(s)
  {
    TrimIdentity(Trim(s));
  }

  /** What follows the last `::`, as `rsplit("::").next()`. */
  function LastSegment(s: string): (r: string)
    ensures |r| <= |s|
  {
    LastSegmentFrom(s, |s|)
  }

  function LastSegmentFrom(s: string, end: nat): (r: string)
    requires end <= |s|
    ensures |r| <= |s|
  {
    if end < 2 then s
    else if MatchesAt(s, end - 2, "::") then s[end..]
    else LastSegmentFrom(s, end - 1)
  }

  predicate NoPathSep(s: string) {
    forall i | 0 <= i < |s| :: !MatchesAt(s, i, "::")
  }

  lemma {:induction false} LastSegmentFromHasNoSep(s: string, end: nat)
    requires end <= |s|
    requires forall i | 0 <= i < |s| && i + 2 > end :: !MatchesAt(s, i, "::")
    ensures NoPathSep(LastSegmentFrom(s, end))
  {
    if end >= 2 {
      if MatchesAt(s, end - 2, "::") {
        var r := s[end..];
        forall i | 0 <= i < |r| ensures !MatchesAt(r, i, "::") {
          assert !MatchesAt(s, end + i, "::");
          if i + 2 <= |r| {
            assert r[i..i + 2] == s[end + i..end + i + 2];
          }
        }
      } else {
        LastSegmentFromHasNoSep(s, end - 1);
      }
    }
  }

  lemma {:induction false} NoSepIsItsOwnSegment(s: string, end: nat)
    requires end <= |s| && NoPathSep(s)
    ensures LastSegmentFrom(s, end) == s
  {
    if end >= 2 {
      assert !MatchesAt(s, end - 2, "::");
      NoSepIsItsOwnSegment(s, end - 1);
    }
  }

  /** The last `::` of a text, and nothing but what follows it. */
  lemma {:induction false} LastSegmentIs(s: string, end: nat)
    requires end <= |s|
    requires forall i | 0 <= i < |s| && i + 2 > end :: !MatchesAt(s, i, "::")
    ensures var r := LastSegmentFrom(s, end);
            && s[|s| - |r|..] == r
            && (|r| < |s| ==> |r| + 2 <= |s| && MatchesAt(s, |s| - |r| - 2, "::"))
            && forall i | 0 <= i < |s| && i + |r| + 2 > |s| :: !MatchesAt(s, i, "::")
  {
    if end >= 2 && !MatchesAt(s, end - 2, "::") {
      LastSegmentIs(s, end - 1);
    }
  }

  // ----- What trimming takes away -----

  /** The 25 characters with the Unicode property White_Space. */
  const WHITE_SPACE :=
    "\U{9}\U{a}\U{b}\U{c}\U{d} \U{85}\U{a0}\U{1680}\U{2000}\U{2001}\U{2002}\U{2003}\U{2004}\U{2005}\U{2006}"
    + "\U{2007}\U{2008}\U{2009}\U{200a}\U{2028}\U{2029}\U{202f}\U{205f}\U{3000}"

  lemma WhitespaceIs(c: char)
    ensures IsWhitespace(c) <==> c in WHITE_SPACE
  {
  }

  predicate AllSpace(s: string) {
    forall c <- s :: IsWhitespace(c)
  }

  /** Indentation and the text behind it, which is empty or starts with ink. */
  lemma {:induction false} SpaceThenInk(s: string)
    ensures s == LeadingSpace(s) + TrimStart(s) && AllSpace(LeadingSpace(s))
  {
    if s != "" && IsWhitespace(s[0]) {
      SpaceThenInk(s[1..]);
      OneMoreSpace(s[0], LeadingSpace(s[1..]), TrimStart(s[1..]));
      assert s == [s[0]] + s[1..];
    }
  }

  lemma OneMoreSpace(c: char, space: string, t: string)
    requires IsWhitespace(c) && AllSpace(space)
    ensures AllSpace([c] + space) && ([c] + space) + t == [c] + (space + t)
  {
  }

  lemma {:induction false} InkThenSpace(s: string)
    ensures AllSpace(s[|TrimEnd(s)|..])
  {
    if s != "" && IsWhitespace(s[|s| - 1]) {
      InkThenSpace(s[..|s| - 1]);
      var n := |TrimEnd(s)|;
      assert s[n..] == s[..|s| - 1][n..] + [s[|s| - 1]];
    }
  }

  /** Trimming takes white space from both ends, all of it and nothing else. */
  lemma TrimTakesSpace(s: string) returns (before: string, after: string)
    ensures s == before + Trim(s) + after
    ensures forall c :: c in before || c in after ==> c in WHITE_SPACE
    ensures var t := Trim(s); t != "" ==> t[0] !in WHITE_SPACE && t[|t| - 1] !in WHITE_SPACE
  {
    before, after := LeadingSpace(s), TrimStart(s)[|Trim(s)|..];
    SpaceThenInk(s);
    InkThenSpace(TrimStart(s));
    forall c ensures IsWhitespace(c) <==> c in WHITE_SPACE {
      WhitespaceIs(c);
    }
  }

  // ----- Cutting at a character -----

  lemma {:induction false} CutAtFirst(a: string, x: string, b: string, y: string, c: char)
    requires c !in a && c !in b && a + [c] + x == b + [c] + y
    ensures a == b && x == y
  {
    var l, r := a + [c] + x, b + [c] + y;
    assert if a == "" then l[0] == c else l[0] == a[0] && a[0] in a;
    assert if b == "" then r[0] == c else r[0] == b[0] && b[0] in b;
    if a == "" && b == "" {
      assert l[1..] == x && r[1..] == y;
    } else if a != "" && b != "" {
      assert l[1..] == a[1..] + [c] + x && r[1..] == b[1..] + [c] + y;
      CutAtFirst(a[1..], x, b[1..], y, c);
      assert a == [a[0]] + a[1..] && b == [b[0]] + b[1..];
    }
  }
}
