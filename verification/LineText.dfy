/** Text as lines: Rust's `str::lines`, and joining lines back with the original's final newline. */
module LineText {
  function DropCr(line: string): string {
    if line != "" && line[|line| - 1] == '\r' then line[..|line| - 1] else line
  }

  function LinesFrom(s: string, sofar: string): seq<string>
    decreases |s|
  {
    if s == "" then (if sofar == "" then [] else [sofar])
    else if s[0] == '\n' then [DropCr(sofar)] + LinesFrom(s[1..], "")
    else LinesFrom(s[1..], sofar + [s[0]])
  }

  /** A `\r` before a `\n` is dropped, and so is the empty line after a final `\n`. */
  function Lines(src: string): seq<string> {
    LinesFrom(src, "")
  }

  function Join(lines: seq<string>): string {
    if lines == [] then ""
    else if |lines| == 1 then lines[0]
    else lines[0] + "\n" + Join(lines[1..])
  }

  function Unlines(lines: seq<string>, newline: bool): string {
    Join(lines) + (if newline then "\n" else "")
  }

  predicate EndsInNewline(src: string) {
    src != "" && src[|src| - 1] == '\n'
  }

  /** A line with no line-ending character in it. */
  predicate Clean(line: string) {
    '\n' !in line && '\r' !in line
  }

  predicate AllClean(lines: seq<string>) {
    forall l <- lines :: Clean(l)
  }

  lemma {:induction false} LinesFromClean(s: string, sofar: string)
    requires '\r' !in s && Clean(sofar)
    ensures AllClean(LinesFrom(s, sofar))
    decreases |s|
  {
    if s != "" {
      LinesFromClean(s[1..], if s[0] == '\n' then "" else sofar + [s[0]]);
    }
  }

  lemma JoinCons(line: string, more: seq<string>, newline: bool)
    requires more != []
    ensures Unlines([line] + more, newline) == line + "\n" + Unlines(more, newline)
  {
    assert ([line] + more)[1..] == more;
  }

  lemma {:induction false} LinesFromSome(s: string, sofar: string)
    requires s != "" || sofar != ""
    ensures LinesFrom(s, sofar) != []
    decreases |s|
  {
    if s != "" && s[0] != '\n' {
      LinesFromSome(s[1..], sofar + [s[0]]);
    }
  }

  lemma JoinAfterNewline(rest: string, sofar: string)
    requires Unlines(LinesFrom(rest, ""), EndsInNewline(rest)) == rest
    ensures Unlines([sofar] + LinesFrom(rest, ""), rest == "" || EndsInNewline(rest)) == sofar + ("\n" + rest)
  {
    if rest == "" {
      assert [sofar] + LinesFrom(rest, "") == [sofar];
      assert "\n" + rest == "\n";
    } else {
      LinesFromSome(rest, "");
      JoinCons(sofar, LinesFrom(rest, ""), EndsInNewline(rest));
      assert sofar + "\n" + rest == sofar + ("\n" + rest);
    }
  }

  lemma {:induction false} JoinLinesFrom(s: string, sofar: string)
    requires forall c <- s :: c != '\r'
    requires forall c <- sofar :: c != '\r'
    ensures Unlines(LinesFrom(s, sofar), EndsInNewline(s)) == sofar + s
    decreases |s|
  {
    if s == "" {
      assert sofar + s == sofar;
    } else {
      var c, rest := s[0], s[1..];
      assert c in s && forall d <- rest :: d in s;
      assert EndsInNewline(s) == if rest == "" then c == '\n' else EndsInNewline(rest);
      if c == '\n' {
        JoinLinesFrom(rest, "");
        assert "" + rest == rest;
        assert sofar != "" ==> sofar[|sofar| - 1] in sofar;
        JoinAfterNewline(rest, sofar);
        assert "\n" + rest == s;
      } else {
        JoinLinesFrom(rest, sofar + [c]);
        assert sofar + [c] + rest == sofar + s;
      }
    }
  }

  /** CR-free text is its lines joined back. */
  lemma SourceIsItsLines(src: string)
    requires '\r' !in src
    ensures Unlines(Lines(src), EndsInNewline(src)) == src && AllClean(Lines(src))
    ensures !EndsInNewline(src) && src != "" ==> Lines(src) != [] && Lines(src)[|Lines(src)| - 1] != ""
  {
    assert forall c <- src :: c != '\r';
    JoinLinesFrom(src, "");
    assert "" + src == src;
    LinesFromClean(src, "");
    if !EndsInNewline(src) && src != "" {
      LastLineNotEmpty(src, "");
    }
  }

  lemma {:induction false} LastLineNotEmpty(s: string, sofar: string)
    requires !EndsInNewline(s) && (s != "" || sofar != "")
    ensures LinesFrom(s, sofar) != [] && LinesFrom(s, sofar)[|LinesFrom(s, sofar)| - 1] != ""
    decreases |s|
  {
    if s != "" {
      if s[0] == '\n' {
        LastLineNotEmpty(s[1..], "");
      } else {
        LastLineNotEmpty(s[1..], sofar + [s[0]]);
      }
    }
  }

  predicate OneLine(line: string) {
    '\n' !in line
  }

  lemma {:induction false} LinesAreOneLine(s: string, sofar: string)
    requires OneLine(sofar)
    ensures forall l <- LinesFrom(s, sofar) :: OneLine(l)
    decreases |s|
  {
    if s != "" {
      LinesAreOneLine(s[1..], if s[0] == '\n' then "" else sofar + [s[0]]);
    }
  }

  lemma {:induction false} LinesFromLine(line: string, rest: string, sofar: string)
    requires OneLine(line) && OneLine(sofar)
    ensures LinesFrom(line + "\n" + rest, sofar) == [DropCr(sofar + line)] + LinesFrom(rest, "")
    decreases |line|
  {
    var s := line + "\n" + rest;
    if line == "" {
      assert s[1..] == rest && sofar + line == sofar;
    } else {
      assert s[1..] == line[1..] + "\n" + rest;
      LinesFromLine(line[1..], rest, sofar + [line[0]]);
      assert sofar + [line[0]] + line[1..] == sofar + line;
    }
  }

  lemma {:induction false} LinesFromLast(line: string, sofar: string)
    requires OneLine(line) && (line != "" || sofar != "")
    ensures LinesFrom(line, sofar) == [sofar + line]
    decreases |line|
  {
    if line == "" {
      assert sofar + line == sofar;
    } else {
      LinesFromLast(line[1..], sofar + [line[0]]);
      assert sofar + [line[0]] + line[1..] == sofar + line;
    }
  }

  /** Each line as it reads back: a `\r` in front of a newline is lost. */
  function ReadBack(lines: seq<string>, newline: bool): (r: seq<string>)
    ensures |r| == |lines|
  {
    seq(|lines|, i requires 0 <= i < |lines| => if i < |lines| - 1 || newline then DropCr(lines[i]) else lines[i])
  }

  lemma LinesOfOne(line: string, newline: bool)
    requires OneLine(line) && (newline || line != "")
    ensures Lines(Unlines([line], newline)) == ReadBack([line], newline)
  {
    assert "" + line == line;
    if newline {
      LinesFromLine(line, "", "");
      assert line + "\n" + "" == Unlines([line], newline);
    } else {
      LinesFromLast(line, "");
      assert Unlines([line], newline) == line;
    }
  }

  lemma ReadBackFirst(lines: seq<string>, newline: bool)
    requires |lines| > 1
    ensures ReadBack(lines, newline) == [DropCr(lines[0])] + ReadBack(lines[1..], newline)
  {
  }

  lemma {:induction false} LinesOfUnlines(lines: seq<string>, newline: bool)
    requires forall l <- lines :: OneLine(l)
    requires newline ==> lines != []
    requires !newline && lines != [] ==> lines[|lines| - 1] != ""
    ensures Lines(Unlines(lines, newline)) == ReadBack(lines, newline)
  {
    if |lines| == 1 {
      assert lines == [lines[0]];
      LinesOfOne(lines[0], newline);
    } else if lines != [] {
      var first, rest := lines[0], lines[1..];
      LinesOfUnlines(rest, newline);
      assert Unlines(lines, newline) == first + "\n" + Unlines(rest, newline);
      LinesFromLine(first, Unlines(rest, newline), "");
      assert "" + first == first;
      ReadBackFirst(lines, newline);
    }
  }

  lemma CleanLinesOfUnlines(lines: seq<string>, newline: bool)
    requires AllClean(lines)
    requires newline ==> lines != []
    requires !newline && lines != [] ==> lines[|lines| - 1] != ""
    ensures Lines(Unlines(lines, newline)) == lines
  {
    LinesOfUnlines(lines, newline);
    forall i | 0 <= i < |lines| ensures DropCr(lines[i]) == lines[i] {
      assert lines[i] in lines;
      assert lines[i] != "" ==> lines[i][|lines[i]| - 1] in lines[i];
    }
  }

  // ----- Lines, one at a time -----

  /** A text is its first line and the lines of what follows; a `\r` goes with the `\n` it stands before. */
  lemma LinesFirst(line: string, rest: string)
    requires '\n' !in line
    ensures Lines(line + "\r\n" + rest) == [line] + Lines(rest)
    ensures line == "" || line[|line| - 1] != '\r' ==> Lines(line + "\n" + rest) == [line] + Lines(rest)
    ensures Lines(line) == if line == "" then [] else [line]
  {
    LinesFromLine(line + "\r", rest, "");
    assert (line + "\r") + "\n" + rest == line + "\r\n" + rest;
    assert "" + (line + "\r") == line + "\r" && (line + "\r")[..|line|] == line;
    LinesFromLine(line, rest, "");
    assert "" + line == line;
    if line != "" {
      LinesFromLast(line, "");
    }
  }

  lemma {:induction false} JoinEndsInInk(lines: seq<string>)
    requires lines != [] && lines[|lines| - 1] != "" && forall l <- lines :: OneLine(l)
    ensures Join(lines) != "" && !EndsInNewline(Join(lines))
  {
    var last := lines[|lines| - 1];
    assert last in lines && last[|last| - 1] in last;
    if |lines| > 1 {
      assert lines[1..][|lines| - 2] == last;
      JoinEndsInInk(lines[1..]);
      var rest := Join(lines[1..]);
      assert Join(lines) == (lines[0] + "\n") + rest && Join(lines)[|Join(lines)| - 1] == rest[|rest| - 1];
    }
  }
}
