/**
 When a staged import lands inside a block comment. The scan for its place skips a line that opens a block
 comment and stops at the next line that looks like code, whether or not the comment has been closed.
 */
module ImportInComment {
  import opened Text
  import opened LineText
  import opened Imports

  /** Where a scan of Rust text stands; block comments nest. */
  datatype Lex = Plain | Quoted | QuotedEscape | Block(depth: nat)

  function LexFrom(l: string, i: nat, st: Lex): Lex
    decreases |l| - i
  {
    if i >= |l| then st
    else
      match st
      case Plain =>
        if MatchesAt(l, i, "//") then Plain
        else if MatchesAt(l, i, "/*") then LexFrom(l, i + 2, Block(1))
        else LexFrom(l, i + 1, if l[i] == '"' then Quoted else Plain)
      case Quoted => LexFrom(l, i + 1, if l[i] == '\\' then QuotedEscape else if l[i] == '"' then Plain else Quoted)
      case QuotedEscape => LexFrom(l, i + 1, Quoted)
      case Block(depth) =>
        if MatchesAt(l, i, "/*") then LexFrom(l, i + 2, Block(depth + 1))
        else if MatchesAt(l, i, "*/") then LexFrom(l, i + 2, if depth <= 1 then Plain else Block(depth - 1))
        else LexFrom(l, i + 1, st)
  }

  /** Where a scan stands after these lines; an escape does not reach over the end of its line. */
  function LexLines(lines: seq<string>): Lex {
    if lines == [] then Plain
    else
      var st := LexFrom(lines[|lines| - 1], 0, LexLines(lines[..|lines| - 1]));
      if st.QuotedEscape? then Quoted else st
  }

  predicate StartsInComment(lines: seq<string>, i: nat)
    requires i <= |lines|
  {
    LexLines(lines[..i]).Block?
  }

  // ----- Which line opened it -----

  /** A line that begins a block comment, or an inner attribute. */
  predicate Opener(line: string) {
    StartsWith(TrimStart(line), "/*") || StartsWith(TrimStart(line), "#![")
  }

  lemma SpaceStep(l: string, i: nat)
    requires i < |l| && IsWhitespace(l[i])
    ensures LexFrom(l, i, Plain) == LexFrom(l, i + 1, Plain)
  {
    assert !MatchesAt(l, i, "//") && !MatchesAt(l, i, "/*") by {
      assert i + 2 <= |l| ==> l[i..i + 2][0] == l[i];
    }
  }

  lemma {:induction false} SpaceIsPassed(l: string, i: nat)
    requires i <= |l|
    ensures var t := TrimStart(l[i..]);
            && |t| <= |l| - i
            && t == l[|l| - |t|..]
            && LexFrom(l, i, Plain) == LexFrom(l, |l| - |t|, Plain)
    decreases |l| - i
  {
    if i < |l| && IsWhitespace(l[i]) {
      SpaceStep(l, i);
      SpaceIsPassed(l, i + 1);
      assert l[i..][1..] == l[i + 1..];
    }
  }

  /** Every other line that may precede an item leaves nothing open. */
  lemma OthersStayPlain(line: string)
    requires Skippable(line) && !Opener(line)
    ensures LexFrom(line, 0, Plain) == Plain
  {
    var t := TrimStart(line);
    SpaceIsPassed(line, 0);
    assert line[0..] == line;
    if t != "" {
      var k := |line| - |t|;
      assert t[..2] == "//" && line[k..k + 2] == t[..2];
      assert MatchesAt(line, k, "//");
    }
  }

  /** Line `j` starts outside any comment or string, and from its end up to line `n` one is open. */
  ghost predicate OpenSince(lines: seq<string>, j: nat, n: nat) {
    j < n <= |lines| && LexLines(lines[..j]) == Plain && forall k :: j < k <= n ==> LexLines(lines[..k]) != Plain
  }

  lemma LexNext(lines: seq<string>, n: nat)
    requires n < |lines|
    ensures var st := LexFrom(lines[n], 0, LexLines(lines[..n]));
            LexLines(lines[..n + 1]) == if st.QuotedEscape? then Quoted else st
  {
    assert lines[..n + 1][..n] == lines[..n];
  }

  /** What is open before line `n` was begun by line `j`. */
  ghost predicate BegunBy(lines: seq<string>, n: nat, j: nat) {
    OpenSince(lines, j, n) && Opener(lines[j]) && LexFrom(lines[j], 0, Plain) != Plain
  }

  lemma BegunHere(lines: seq<string>, n: nat)
    requires n < |lines| && Skippable(lines[n])
    requires LexLines(lines[..n]) == Plain && LexLines(lines[..n + 1]) != Plain
    ensures BegunBy(lines, n + 1, n)
  {
    LexNext(lines, n);
    if !Opener(lines[n]) {
      OthersStayPlain(lines[n]);
    }
  }

  lemma StaysBegun(lines: seq<string>, n: nat, j: nat)
    requires n < |lines| && BegunBy(lines, n, j) && LexLines(lines[..n + 1]) != Plain
    ensures BegunBy(lines, n + 1, j)
  {
  }

  lemma {:induction false} OpenedByAnOpener(lines: seq<string>, n: nat) returns (j: nat)
    requires n <= |lines| && forall i :: 0 <= i < n ==> Skippable(lines[i])
    requires LexLines(lines[..n]) != Plain
    ensures BegunBy(lines, n, j)
  {
    assert n > 0 by { assert LexLines([]) == Plain; }
    if LexLines(lines[..n - 1]) == Plain {
      BegunHere(lines, n - 1);
      j := n - 1;
    } else {
      j := OpenedByAnOpener(lines, n - 1);
      StaysBegun(lines, n - 1, j);
    }
  }

  /**
   The import stands inside a comment exactly when the lines it was put after leave one open. Then one of
   them that begins a comment or an inner attribute, read from outside any comment, left something open
   that was not closed since; blank lines and line comments never do.
   */
  lemma ImportInCommentExactly(src: string, line: string)
    requires PlainImport(line) && '\r' !in src && !HasImport(Lines(src), line)
    ensures var lines, out, at := Lines(src), Lines(EnsureImport(src, line)), ImportIndex(Lines(src));
            && at < |out| && out[at] == line
            && (StartsInComment(out, at) <==> StartsInComment(lines, at))
            && (StartsInComment(out, at) ==> exists j: nat :: BegunBy(lines, at, j))
            && ((forall j :: 0 <= j < at && Opener(lines[j]) ==> LexFrom(lines[j], 0, Plain) == Plain) ==>
                  !StartsInComment(out, at))
  {
    var lines, out, at := Lines(src), Lines(EnsureImport(src, line)), ImportIndex(Lines(src));
    ImportPlaced(src, line);
    assert out[..at] == lines[..at];
    if StartsInComment(lines, at) {
      var j := OpenedByAnOpener(lines, at);
      assert BegunBy(lines, at, j);
    }
  }

  lemma {:induction false} StaysInBlock(l: string, i: nat, depth: nat)
    requires i <= |l| && forall k :: i <= k < |l| ==> l[k] != '/' && l[k] != '*'
    ensures LexFrom(l, i, Block(depth)) == Block(depth)
    decreases |l| - i
  {
    if i < |l| {
      assert !MatchesAt(l, i, "/*") && !MatchesAt(l, i, "*/") by {
        assert i + 2 <= |l| ==> l[i..i + 2][0] == l[i];
      }
      StaysInBlock(l, i + 1, depth);
    }
  }

  const OPENING := "/* about"
  const CLOSING := "this file */"

  lemma OpeningOpens()
    ensures LexLines([OPENING]) == Block(1) && LexLines([]) == Plain
  {
    assert MatchesAt(OPENING, 0, "/*") && !MatchesAt(OPENING, 0, "//");
    StaysInBlock(OPENING, 2, 1);
    assert [OPENING][..0] == [];
  }

  lemma HeaderFacts()
    ensures Skippable(OPENING) && !Skippable(CLOSING)
    ensures Trim(OPENING) == OPENING && Trim(CLOSING) == CLOSING
    ensures AllClean([OPENING, CLOSING]) && '\r' !in Unlines([OPENING, CLOSING], true)
    ensures Lines(Unlines([OPENING, CLOSING], true)) == [OPENING, CLOSING]
  {
    TrimIdentity(OPENING);
    TrimIdentity(CLOSING);
    assert OPENING[..2] == "/*";
    CleanLinesOfUnlines([OPENING, CLOSING], true);
    assert Join([OPENING, CLOSING]) == OPENING + "\n" + CLOSING by { assert [OPENING, CLOSING][1..] == [CLOSING]; }
  }

  /** A header comment over two lines is split: the import lies inside it and imports nothing. */
  lemma HeaderIsSplit(line: string)
    requires PlainImport(line) && line != OPENING && line != CLOSING
    ensures var out := Lines(EnsureImport(Unlines([OPENING, CLOSING], true), line));
            out == [OPENING, line, CLOSING] && StartsInComment(out, 1)
  {
    HeaderFacts();
    OpeningOpens();
    var lines := [OPENING, CLOSING];
    assert ImportIndex(lines) == 1 by { assert lines[0] == OPENING && lines[1] == CLOSING; }
    assert !HasImport(lines, line);
    ImportPlaced(Unlines(lines, true), line);
    assert [OPENING, line, CLOSING][..1] == [OPENING];
  }
}
