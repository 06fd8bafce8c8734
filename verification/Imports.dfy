/** Staging the imports an edited file needs (`src/contract_draft.rs`). */
module Imports {
  import opened Basics
  import opened Text
  import opened LineText
  import opened Markers
  import opened MarkerPlan

  const PRELUDE_LOGIC := "use creusot_std::macros::*;"
  const PRELUDE_PURE := "use prusti_contracts::*;"
  const INT_IMPORT := "use creusot_std::logic::Int;"

  function PreludeImport(m: Marker): string {
    match m case Logic => PRELUDE_LOGIC case Pure => PRELUDE_PURE
  }

  /** What may, or must, precede the first item. An outer doc comment belongs to the item below it. */
  predicate Skippable(line: string) {
    var t := TrimStart(line);
    || t == ""
    || StartsWith(t, "//!")
    || StartsWith(t, "#![")
    || (StartsWith(t, "//") && !StartsWith(t, "///"))
    || StartsWith(t, "/*")
  }

  function ImportIndex(lines: seq<string>): (at: nat)
    ensures at <= |lines|
    ensures forall i :: 0 <= i < at ==> Skippable(lines[i])
    ensures at < |lines| ==> !Skippable(lines[at])
  {
    match Position(lines, (l: string) => !Skippable(l))
    case Some(i) => i
    case None => |lines|
  }

  predicate HasImport(lines: seq<string>, line: string) {
    exists l | l in lines :: Trim(l) == line
  }

  function WithImport(lines: seq<string>, line: string): seq<string> {
    lines[..ImportIndex(lines)] + [line] + lines[ImportIndex(lines)..]
  }

  function EnsureImport(src: string, line: string): string {
    if HasImport(Lines(src), line) then src
    else Unlines(WithImport(Lines(src), line), EndsInNewline(src) || src == "")
  }

  function EnsurePrelude(src: string, m: Marker): string {
    EnsureImport(src, PreludeImport(m))
  }

  function EnsureLogicTypes(src: string, m: Marker, alnum: CharClass): string {
    if m != Logic || !Mentions(src, "Int", 0, alnum) then src else EnsureImport(src, INT_IMPORT)
  }

  function StageImports(src: string, m: Marker, alnum: CharClass): string {
    EnsureLogicTypes(EnsurePrelude(src, m), m, alnum)
  }

  // ----- Whole words -----

  predicate Ident(c: char, alnum: CharClass) {
    alnum(c) || c == '_'
  }

  function FindFrom(s: string, start: nat, word: string): (r: Option<nat>)
    requires start <= |s| && word != ""
    ensures r.Some? ==> start <= r.value && MatchesAt(s, r.value, word)
    decreases |s| - start
  {
    if MatchesAt(s, start, word) then Some(start)
    else if start == |s| then None
    else FindFrom(s, start + 1, word)
  }

  lemma {:induction false} FindFromIsFirst(s: string, start: nat, word: string)
    requires start <= |s| && word != ""
    ensures forall i: nat :: start <= i && (FindFrom(s, start, word).Some? ==> i < FindFrom(s, start, word).value) ==>
              !MatchesAt(s, i, word)
    decreases |s| - start
  {
    if !MatchesAt(s, start, word) && start < |s| {
      FindFromIsFirst(s, start + 1, word);
    }
  }

  predicate IdentAt(s: string, i: int, alnum: CharClass) {
    0 <= i < |s| && Ident(s[i], alnum)
  }

  /** The search from `start` on, which has forgotten the character before `start`. */
  predicate Mentions(s: string, word: string, start: nat, alnum: CharClass)
    requires start <= |s| && word != ""
    decreases |s| - start
  {
    match FindFrom(s, start, word)
    case None => false
    case Some(i) =>
      || ((i == start || !IdentAt(s, i - 1, alnum)) && !IdentAt(s, i + |word|, alnum))
      || Mentions(s, word, i + |word|, alnum)
  }

  predicate AcceptsAt(s: string, word: string, start: nat, i: nat, alnum: CharClass) {
    (i <= start || !IdentAt(s, i - 1, alnum)) && !IdentAt(s, i + |word|, alnum)
  }

  lemma MentionsStep(s: string, word: string, start: nat, alnum: CharClass)
    requires start <= |s| && word != ""
    ensures Mentions(s, word, start, alnum) <==>
            var found := FindFrom(s, start, word);
            found.Some? && (AcceptsAt(s, word, start, found.value, alnum)
                            || Mentions(s, word, found.value + |word|, alnum))
  {
  }

  /** `mentions_word`. */
  method MentionsWord(src: string, word: string, alnum: CharClass) returns (r: bool)
    requires word != ""
    ensures r == Mentions(src, word, 0, alnum)
  {
    ghost var answer := Mentions(src, word, 0, alnum);
    var rest := 0;
    while true
      invariant rest <= |src|
      invariant answer == Mentions(src, word, rest, alnum)
      decreases |src| - rest
    {
      MentionsStep(src, word, rest, alnum);
      var found := FindFrom(src, rest, word);
      if found.None? {
        return false;
      }
      var i := found.value;
      var after := i + |word|;
      if AcceptsAt(src, word, rest, i, alnum) {
        return true;
      }
      rest := after;
    }
  }

  /** `word` standing as a whole identifier at `i`. */
  predicate WholeAt(s: string, i: nat, word: string, alnum: CharClass) {
    && MatchesAt(s, i, word)
    && (i > 0 ==> !alnum(s[i - 1]) && s[i - 1] != '_')
    && (i + |word| < |s| ==> !alnum(s[i + |word|]) && s[i + |word|] != '_')
  }

  lemma IdentInside(s: string, word: string, j: nat, p: nat, alnum: CharClass)
    requires (forall c <- word :: Ident(c, alnum)) && MatchesAt(s, j, word) && j <= p
    ensures p < j + |word| ==> IdentAt(s, p, alnum)
  {
    if p < j + |word| {
      assert s[p] == s[j..j + |word|][p - j];
      assert word[p - j] in word;
    }
  }

  lemma WholeIs(s: string, i: nat, word: string, alnum: CharClass)
    ensures WholeAt(s, i, word, alnum) <==>
            MatchesAt(s, i, word) && !IdentAt(s, i - 1, alnum) && !IdentAt(s, i + |word|, alnum)
  {
  }

  /** The search never misses a whole identifier. */
  lemma MentionsIsComplete(s: string, word: string, start: nat, i: nat, alnum: CharClass)
    requires word != "" && forall c <- word :: Ident(c, alnum)
    requires start <= i && WholeAt(s, i, word, alnum)
    ensures start <= |s| && Mentions(s, word, start, alnum)
  {
    WholeIs(s, i, word, alnum);
    WholeIsFound(s, word, start, i, alnum);
  }

  lemma {:induction false} WholeIsFound(s: string, word: string, start: nat, i: nat, alnum: CharClass)
    requires word != "" && forall c <- word :: Ident(c, alnum)
    requires start <= i && MatchesAt(s, i, word) && !IdentAt(s, i - 1, alnum) && !IdentAt(s, i + |word|, alnum)
    ensures start <= |s| && Mentions(s, word, start, alnum)
    decreases |s| - start
  {
    FindFromIsFirst(s, start, word);
    var j := FindFrom(s, start, word).value;
    if j < i {
      IdentInside(s, word, j, i - 1, alnum);
      WholeIsFound(s, word, j + |word|, i, alnum);
    }
  }

  /** No two occurrences of the word can overlap. */
  ghost predicate NoOverlap(word: string) {
    forall k :: 0 < k < |word| ==> word[k..] != word[..|word| - k]
  }

  lemma OccurrencesApart(s: string, word: string, i: nat, j: nat)
    requires MatchesAt(s, i, word) && MatchesAt(s, j, word) && i < j
    ensures j < i + |word| ==> !NoOverlap(word)
  {
    if j < i + |word| {
      var k := j - i;
      assert word[k..] == s[j..i + |word|];
      assert word[..|word| - k] == s[j..j + (|word| - k)];
    }
  }

  /** What the search accepts: it takes the end of an earlier occurrence for the start of a word. */
  ghost predicate AcceptedAt(s: string, i: nat, word: string, start: nat, alnum: CharClass) {
    && start <= i && MatchesAt(s, i, word) && !IdentAt(s, i + |word|, alnum)
    && (i == start || !IdentAt(s, i - 1, alnum) || (i >= start + |word| && MatchesAt(s, i - |word|, word)))
  }

  /** An occurrence accepted after the first one is accepted from where that one ends, and back. */
  lemma AcceptedLater(s: string, word: string, start: nat, j: nat, i: nat, alnum: CharClass)
    requires word != "" && NoOverlap(word) && start <= j && MatchesAt(s, j, word) && i > j
    requires forall p: nat :: start <= p < j ==> !MatchesAt(s, p, word)
    ensures AcceptedAt(s, i, word, start, alnum) <==> AcceptedAt(s, i, word, j + |word|, alnum)
  {
    if MatchesAt(s, i, word) {
      OccurrencesApart(s, word, j, i);
      var p := i - |word|;
      if p > j && MatchesAt(s, p, word) {
        OccurrencesApart(s, word, j, p);
      }
    }
  }

  lemma {:induction false} MentionedIsAccepted(s: string, word: string, start: nat, alnum: CharClass) returns (i: nat)
    requires word != "" && NoOverlap(word) && start <= |s| && Mentions(s, word, start, alnum)
    ensures AcceptedAt(s, i, word, start, alnum)
    decreases |s| - start
  {
    FindFromIsFirst(s, start, word);
    var j := FindFrom(s, start, word).value;
    i := j;
    if !AcceptedAt(s, j, word, start, alnum) {
      i := MentionedIsAccepted(s, word, j + |word|, alnum);
      AcceptedLater(s, word, start, j, i, alnum);
    }
  }

  lemma {:induction false} AcceptedIsMentioned(s: string, word: string, start: nat, i: nat, alnum: CharClass)
    requires word != "" && NoOverlap(word) && start <= |s| && AcceptedAt(s, i, word, start, alnum)
    ensures Mentions(s, word, start, alnum)
    decreases |s| - start
  {
    FindFromIsFirst(s, start, word);
    var j := FindFrom(s, start, word).value;
    if i > j {
      AcceptedLater(s, word, start, j, i, alnum);
      AcceptedIsMentioned(s, word, j + |word|, i, alnum);
    } else if i >= start + |word| {
      assert !MatchesAt(s, i - |word|, word);
    }
  }

  /** Exactly when the search says yes; for `Int`, an identifier that ends in `IntInt` is accepted too. */
  lemma MentionsExactly(s: string, word: string, start: nat, alnum: CharClass)
    requires word != "" && NoOverlap(word) && start <= |s|
    ensures Mentions(s, word, start, alnum) <==> exists i: nat :: AcceptedAt(s, i, word, start, alnum)
  {
    if Mentions(s, word, start, alnum) {
      var i := MentionedIsAccepted(s, word, start, alnum);
    }
    if i: nat :| AcceptedAt(s, i, word, start, alnum) {
      AcceptedIsMentioned(s, word, start, i, alnum);
    }
  }

  /** The word ends an identifier that holds it twice in a row at its end. */
  ghost predicate DoubledAt(s: string, i: nat, word: string, alnum: CharClass) {
    i >= |word| && MatchesAt(s, i - |word|, word) && MatchesAt(s, i, word) && !IdentAt(s, i + |word|, alnum)
  }

  /** From the start of the text, the search finds whole identifiers and doubled ends, and nothing else. */
  lemma MentionsWholeOrDoubled(s: string, word: string, alnum: CharClass)
    requires word != "" && NoOverlap(word)
    ensures Mentions(s, word, 0, alnum) <==>
              || (exists i: nat :: WholeAt(s, i, word, alnum))
              || (exists i: nat :: DoubledAt(s, i, word, alnum))
  {
    MentionsExactly(s, word, 0, alnum);
    forall i: nat
      ensures AcceptedAt(s, i, word, 0, alnum) <==> WholeAt(s, i, word, alnum) || DoubledAt(s, i, word, alnum)
    {
    }
  }

  lemma IntNeverOverlaps()
    ensures NoOverlap("Int")
  {
    assert "Int"[1..] == "nt" && "Int"[..2] == "In";
    assert "Int"[2..] == "t" && "Int"[..1] == "I";
  }

  /**
   The types a file says decide its import: one goes in exactly for a logic marker over a text that holds
   `Int` as a whole identifier or doubled at an identifier's end. Only the second is not a use of `Int`.
   */
  lemma LogicTypesExactly(src: string, m: Marker, alnum: CharClass)
    ensures EnsureLogicTypes(src, m, alnum) ==
            if m == Logic && ((exists i: nat :: WholeAt(src, i, "Int", alnum))
                              || exists i: nat :: DoubledAt(src, i, "Int", alnum))
            then EnsureImport(src, INT_IMPORT) else src
    ensures Mentions(src, "Int", 0, alnum) && !(exists i: nat :: WholeAt(src, i, "Int", alnum)) <==>
            (exists i: nat :: DoubledAt(src, i, "Int", alnum)) && !exists i: nat :: WholeAt(src, i, "Int", alnum)
  {
    IntNeverOverlaps();
    MentionsWholeOrDoubled(src, "Int", alnum);
  }

  /** Complete, not exact: a doubled word counts although no whole identifier is that word. */
  lemma DoubledWordCounts(alnum: CharClass)
    requires forall c <- "Int" :: alnum(c)
    ensures Mentions("IntInt", "Int", 0, alnum)
    ensures forall i: nat :: !WholeAt("IntInt", i, "Int", alnum)
  {
    var s := "IntInt";
    assert MatchesAt(s, 0, "Int") && MatchesAt(s, 3, "Int");
    assert forall c <- s :: alnum(c);
    assert s[3] in s;
    assert FindFrom(s, 3, "Int") == Some(3);
    forall i: nat ensures !WholeAt(s, i, "Int", alnum) {
      if MatchesAt(s, i, "Int") {
        assert i <= 3;
        if i > 0 {
          assert s[i - 1] in s;
        }
      }
    }
  }

  // ----- Placement -----

  lemma {:induction false} TrimEndDropsCr(s: string)
    ensures TrimEnd(DropCr(s)) == TrimEnd(s)
  {
  }

  lemma {:induction false} TrimDropsCr(l: string)
    ensures Trim(DropCr(l)) == Trim(l)
  {
    if l != "" && l[|l| - 1] == '\r' {
      var d := DropCr(l);
      if IsWhitespace(l[0]) {
        if |l| > 1 {
          assert l[1..][..|l| - 2] == d[1..];
          TrimDropsCr(l[1..]);
          assert DropCr(l[1..]) == d[1..];
        } else {
          assert d == "" && l[1..] == "";
        }
      } else {
        TrimEndDropsCr(l);
      }
    }
  }

  predicate PlainImport(line: string) {
    OneLine(line) && line != "" && Trim(line) == line
  }

  lemma PreludesArePlain(m: Marker)
    ensures PlainImport(PreludeImport(m)) && PlainImport(INT_IMPORT)
  {
    match m {
      case Logic => TrimIdentity(PRELUDE_LOGIC);
      case Pure => TrimIdentity(PRELUDE_PURE);
    }
    IntImportIsPlain();
  }

  lemma IntImportIsPlain()
    ensures PlainImport(INT_IMPORT)
  {
    TrimIdentity(INT_IMPORT);
  }

  predicate SameTrimmed(a: seq<string>, b: seq<string>) {
    |a| == |b| && forall i | 0 <= i < |a| :: Trim(a[i]) == Trim(b[i])
  }

  lemma WithImportReadsBack(src: string, line: string)
    requires PlainImport(line) && !HasImport(Lines(src), line)
    ensures var all := WithImport(Lines(src), line);
            Lines(EnsureImport(src, line)) == ReadBack(all, EndsInNewline(src) || src == "")
  {
    LinesAreOneLine(src, "");
    if !EndsInNewline(src) && src != "" {
      LastLineNotEmpty(src, "");
    }
    LinesOfUnlines(WithImport(Lines(src), line), EndsInNewline(src) || src == "");
  }

  lemma ReadBackTrims(lines: seq<string>, newline: bool)
    ensures SameTrimmed(ReadBack(lines, newline), lines)
  {
    forall i | 0 <= i < |lines| ensures Trim(ReadBack(lines, newline)[i]) == Trim(lines[i]) {
      TrimDropsCr(lines[i]);
    }
  }

  /**
   At most one line is added. The file's own lines stay in order, the import comes after a prefix every
   line of which may precede an item, and the line after that prefix may not.
   */
  lemma ImportPlaced(src: string, line: string)
    requires PlainImport(line)
    ensures HasImport(Lines(src), line) ==> EnsureImport(src, line) == src
    ensures !HasImport(Lines(src), line) ==> SameTrimmed(Lines(EnsureImport(src, line)), WithImport(Lines(src), line))
    ensures !HasImport(Lines(src), line) && '\r' !in src ==>
              Lines(EnsureImport(src, line)) == WithImport(Lines(src), line)
    ensures forall i :: 0 <= i < ImportIndex(Lines(src)) ==> Skippable(Lines(src)[i])
    ensures ImportIndex(Lines(src)) < |Lines(src)| ==> !Skippable(Lines(src)[ImportIndex(Lines(src))])
  {
    if !HasImport(Lines(src), line) {
      WithImportReadsBack(src, line);
      ReadBackTrims(WithImport(Lines(src), line), EndsInNewline(src) || src == "");
      if '\r' !in src {
        SourceIsItsLines(src);
        CleanWithImport(Lines(src), line, EndsInNewline(src) || src == "");
      }
    }
  }

  predicate Indents(line: string, space: string, t: string) {
    line == space + t && AllSpace(space) && (t != "" ==> !IsWhitespace(t[0]))
  }

  predicate BeforeItems(t: string) {
    t == "" || "//!" <= t || "#![" <= t || "/*" <= t || ("//" <= t && !("///" <= t))
  }

  /** What may come before the first item: blank lines, inner docs and attributes, comments of no item. */
  ghost predicate Header(line: string) {
    exists space, t :: Indents(line, space, t) && BeforeItems(t)
  }

  lemma HeaderIs(line: string)
    ensures Skippable(line) <==> Header(line)
  {
    SpaceThenInk(line);
    assert Indents(line, LeadingSpace(line), TrimStart(line));
    assert Skippable(line) <==> BeforeItems(TrimStart(line));
    forall space, t | Indents(line, space, t) ensures t == TrimStart(line) {
      IndentIs(space, t);
      assert t == line[|space|..] && TrimStart(line) == line[|space|..];
    }
  }

  /**
   A line that says the import, however indented, is enough. Otherwise it goes after the file's whole header:
   no line of it ends up below, and no other line above.
   */
  lemma ImportAfterHeader(src: string, line: string)
    requires PlainImport(line)
    ensures (exists l :: l in Lines(src) && Trim(l) == line) ==> EnsureImport(src, line) == src
    ensures !(exists l :: l in Lines(src) && Trim(l) == line) ==>
              exists at: nat ::
                && BelowHeader(Lines(src), at)
                && SameTrimmed(Lines(EnsureImport(src, line)), Lines(src)[..at] + [line] + Lines(src)[at..])
  {
    var lines, at := Lines(src), ImportIndex(Lines(src));
    ImportPlaced(src, line);
    forall i | 0 <= i < |lines| ensures Skippable(lines[i]) <==> Header(lines[i]) {
      HeaderIs(lines[i]);
    }
    assert BelowHeader(lines, at);
  }

  /** All lines before `at` are header lines, and the one at `at` is not. */
  ghost predicate BelowHeader(lines: seq<string>, at: nat) {
    && at <= |lines|
    && (forall i :: 0 <= i < at ==> Header(lines[i]))
    && (at < |lines| ==> !Header(lines[at]))
  }

  /** The file ends in a newline if it did, and an empty one is given one. */
  lemma NewlineAtEnd(src: string, line: string)
    requires PlainImport(line)
    ensures EndsInNewline(EnsureImport(src, line)) <==> EndsInNewline(src) || src == ""
  {
    var lines := Lines(src);
    if !HasImport(lines, line) && !EndsInNewline(src) && src != "" {
      LinesAreOneLine(src, "");
      LastLineNotEmpty(src, "");
      JoinEndsInInk(WithImport(lines, line));
      assert Join(WithImport(lines, line)) + "" == Join(WithImport(lines, line));
    }
  }

  lemma CleanWithImport(lines: seq<string>, line: string, newline: bool)
    requires AllClean(lines) && PlainImport(line)
    ensures ReadBack(WithImport(lines, line), newline) == WithImport(lines, line)
  {
    var all := WithImport(lines, line);
    assert line[|line| - 1] != '\r' by {
      assert !IsWhitespace(Trim(line)[|line| - 1]);
    }
    forall i | 0 <= i < |all| ensures DropCr(all[i]) == all[i] {
      if all[i] != line {
        assert all[i] in lines;
        assert all[i] != "" ==> all[i][|all[i]| - 1] in all[i];
      }
    }
  }

  lemma SameTrimmedHas(a: seq<string>, b: seq<string>, i: nat)
    requires SameTrimmed(a, b) && i < |b|
    ensures HasImport(a, Trim(b[i]))
  {
    assert a[i] in a && Trim(a[i]) == Trim(b[i]);
  }

  lemma ImportIsThere(src: string, line: string, other: string)
    requires PlainImport(line)
    ensures HasImport(Lines(EnsureImport(src, line)), line)
    ensures HasImport(Lines(src), other) ==> HasImport(Lines(EnsureImport(src, line)), other)
  {
    ImportPlaced(src, line);
    if !HasImport(Lines(src), line) {
      WithImportHas(Lines(src), Lines(EnsureImport(src, line)), line, other);
    }
  }

  lemma WithImportHas(lines: seq<string>, out: seq<string>, line: string, other: string)
    requires Trim(line) == line && SameTrimmed(out, WithImport(lines, line))
    ensures HasImport(out, line)
    ensures HasImport(lines, other) ==> HasImport(out, other)
  {
    var all := WithImport(lines, line);
    SameTrimmedHas(out, all, ImportIndex(lines));
    if l :| l in lines && Trim(l) == other {
      var i :| 0 <= i < |lines| && lines[i] == l;
      var j := if i < ImportIndex(lines) then i else i + 1;
      assert all[j] == l;
      SameTrimmedHas(out, all, j);
    }
  }

  /** Staging imports twice is staging them once, prelude and logic types together. */
  lemma StageImportsIdempotent(src: string, m: Marker, alnum: CharClass)
    ensures StageImports(StageImports(src, m, alnum), m, alnum) == StageImports(src, m, alnum)
  {
    PreludesArePlain(m);
    var one := EnsurePrelude(src, m);
    ImportIsThere(src, PreludeImport(m), "");
    ImportIsThere(one, INT_IMPORT, PreludeImport(m));
  }

  /** After staging, the marker's macros are imported, and `Int` is wherever it is spoken of. */
  lemma ImportsAreThere(src: string, m: Marker, alnum: CharClass)
    ensures var out := Lines(StageImports(src, m, alnum));
            && HasImport(out, if m == Logic then "use creusot_std::macros::*;" else "use prusti_contracts::*;")
            && (m == Logic && (exists i: nat :: WholeAt(EnsurePrelude(src, m), i, "Int", alnum)) ==>
                  HasImport(out, "use creusot_std::logic::Int;"))
  {
    PreludesArePlain(m);
    var one := EnsurePrelude(src, m);
    LogicTypesExactly(one, m, alnum);
    ImportIsThere(src, PreludeImport(m), "");
    ImportIsThere(one, INT_IMPORT, PreludeImport(m));
  }

  // ----- Markers survive the imports staged after them -----

  /** Target `n` stands directly under its own marker. */
  predicate DirectlyMarked(lines: seq<string>, n: nat, m: Marker) {
    2 <= n <= |lines| && Trim(lines[n - 2]) == Attribute(m)
  }

  lemma DirectlyMarkedIsMarked(src: string, n: nat, m: Marker)
    requires DirectlyMarked(Lines(src), n, m)
    ensures Marked(src, n, m)
  {
    var above := Lines(src)[..n - 1];
    assert above == Lines(src)[..n - 2] + [Lines(src)[n - 2]];
    MarkedByLast(Lines(src)[..n - 2], Lines(src)[n - 2], m);
  }

  lemma MarkedByLast(above: seq<string>, line: string, m: Marker)
    requires Trim(line) == Attribute(m)
    ensures MarkedAbove(above + [line], m)
  {
    AttributeFacts(m);
    MarkedSnoc(above, line, m);
  }

  lemma {:induction false} TrimmedAttributeStaysPut(line: string, m: Marker)
    requires Trim(line) == Attribute(m)
    ensures !Skippable(line)
  {
    AttributeFacts(m);
    var t := TrimStart(line);
    assert Attribute(m) <= t;
    assert t[0] == '#' && t[1] == '[';
  }

  /** Where line `n` ends up once an import has been ensured. */
  function ImportShift(lines: seq<string>, line: string, n: nat): nat {
    if HasImport(lines, line) || n <= ImportIndex(lines) then n else n + 1
  }

  lemma MarkMovesDown(lines: seq<string>, out: seq<string>, line: string, n: nat, m: Marker)
    requires DirectlyMarked(lines, n, m) && SameTrimmed(out, WithImport(lines, line))
    ensures DirectlyMarked(out, n + 1, m) && Trim(out[n]) == Trim(lines[n - 1]) && ImportIndex(lines) < n
  {
    TrimmedAttributeStaysPut(lines[n - 2], m);
    InsertedBefore(lines, out, line, n);
  }

  lemma ImportKeepsMark(src: string, line: string, n: nat, m: Marker)
    requires PlainImport(line) && DirectlyMarked(Lines(src), n, m)
    ensures DirectlyMarked(Lines(EnsureImport(src, line)), ImportShift(Lines(src), line, n), m)
    ensures Trim(Lines(EnsureImport(src, line))[ImportShift(Lines(src), line, n) - 1]) == Trim(Lines(src)[n - 1])
  {
    ImportPlaced(src, line);
    if !HasImport(Lines(src), line) {
      MarkMovesDown(Lines(src), Lines(EnsureImport(src, line)), line, n, m);
    }
  }

  /** A line that cannot be skipped, and the one after it, move down by one. */
  lemma InsertedBefore(lines: seq<string>, out: seq<string>, line: string, n: nat)
    requires SameTrimmed(out, WithImport(lines, line)) && 2 <= n <= |lines| && !Skippable(lines[n - 2])
    ensures ImportIndex(lines) <= n - 2 && |out| == |lines| + 1
    ensures Trim(out[n - 1]) == Trim(lines[n - 2]) && Trim(out[n]) == Trim(lines[n - 1])
  {
    var all, at := WithImport(lines, line), ImportIndex(lines);
    assert at <= n - 2;
    assert all[n - 1] == lines[n - 2] && all[n] == lines[n - 1];
  }

  lemma {:induction false} DraftedIsDirectlyMarked(src: string, drafts: seq<MarkerDraft>, n: nat, m: Marker)
    requires '\r' !in src && MarkerDrafts(drafts, m) && 1 <= n <= |Lines(src)| && AttributesAt(drafts, n) != []
    ensures DirectlyMarked(Lines(Edited(src, drafts)), Shift(drafts, n), m)
    ensures Lines(Edited(src, drafts))[Shift(drafts, n) - 1] == Lines(src)[n - 1]
  {
    AttributeFacts(m);
    LinesOfEdited(src, drafts);
    AboveTarget(Lines(src), drafts, n);
    AttributesAtMembers(drafts, n);
    var line, attributes := Lines(src)[n - 1], AttributesAt(drafts, n);
    assert attributes[0] in attributes;
    var woven, i := Lines(Edited(src, drafts)), Shift(drafts, n) - 1;
    var above := WovenBefore(Lines(src), drafts, n - 1) + Above(line, attributes);
    assert woven[..i] == above && above[|above| - 1] == LeadingSpace(line) + Attribute(m);
    assert woven[i - 1] == woven[..i][i - 1];
    IndentedAttributeTrims(line, m);
  }

  /** Where line `n` ends up once both imports have been staged. */
  function StagedLine(src: string, m: Marker, alnum: CharClass, n: nat): nat {
    var one, n' := EnsurePrelude(src, m), ImportShift(Lines(src), PreludeImport(m), n);
    if m != Logic || !Mentions(one, "Int", 0, alnum) then n' else ImportShift(Lines(one), INT_IMPORT, n')
  }

  /** Line `n` reads `target` and stands directly under its marker. */
  predicate MarkedAs(src: string, n: nat, m: Marker, target: string) {
    DirectlyMarked(Lines(src), n, m) && Trim(Lines(src)[n - 1]) == target
  }

  lemma EnsuringKeepsMark(src: string, line: string, n: nat, m: Marker, target: string)
    requires PlainImport(line) && MarkedAs(src, n, m, target)
    ensures MarkedAs(EnsureImport(src, line), ImportShift(Lines(src), line, n), m, target)
  {
    ImportKeepsMark(src, line, n, m);
  }

  lemma StagingKeepsMark(src: string, n: nat, m: Marker, alnum: CharClass, target: string)
    requires MarkedAs(src, n, m, target)
    ensures MarkedAs(StageImports(src, m, alnum), StagedLine(src, m, alnum, n), m, target)
  {
    PreludesArePlain(m);
    EnsuringKeepsMark(src, PreludeImport(m), n, m, target);
    EnsuringKeepsMark(EnsurePrelude(src, m), INT_IMPORT, ImportShift(Lines(src), PreludeImport(m), n), m, target);
  }

  /**
   The whole staging of one file, markers first and imports after: every drafted function stands at its
   line pushed down by the drafts above it and the imports before it, directly under its marker, and so
   reads as marked there.
   */
  lemma StagedFileReadsAsMarked(src: string, drafts: seq<MarkerDraft>, n: nat, m: Marker, alnum: CharClass)
    requires '\r' !in src && MarkerDrafts(drafts, m) && 1 <= n <= |Lines(src)| && AttributesAt(drafts, n) != []
    ensures var edited := Edited(src, drafts);
            var out, k := StageImports(edited, m, alnum), StagedLine(edited, m, alnum, Shift(drafts, n));
            Marked(out, k, m) && Trim(Lines(out)[k - 1]) == Trim(Lines(src)[n - 1])
  {
    var edited := Edited(src, drafts);
    DraftedIsDirectlyMarked(src, drafts, n, m);
    StagingKeepsMark(edited, Shift(drafts, n), m, alnum, Trim(Lines(src)[n - 1]));
    DirectlyMarkedIsMarked(StageImports(edited, m, alnum), StagedLine(edited, m, alnum, Shift(drafts, n)), m);
  }
}
