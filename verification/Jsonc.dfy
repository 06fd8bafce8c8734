/** Stripping JSONC to JSON (`src/buildenv.rs`): a comment pass, then a trailing-comma pass. */
module Jsonc {
  import opened Basics
  import opened Text

  // ----- Specification: one automaton per pass -----

  /** Where a scan of JSONC stands. A block comment remembers whether it has just seen a `*`. */
  datatype State = InCode | InString | Escaped | InLine | InBlock(star: bool)

  /** What the comment pass writes from state `st` on. */
  function StripComments(s: string, st: State): string {
    if s == "" then ""
    else
      match st
      case InCode =>
        if s[0] == '"' then [s[0]] + StripComments(s[1..], InString)
        else if OpensLine(s) then StripComments(s[1..], InLine)
        else if OpensBlock(s) then StripComments(s[2..], InBlock(false))
        else [s[0]] + StripComments(s[1..], InCode)
      case InString =>
        [s[0]] + StripComments(s[1..], InsideString(s[0]))
      case Escaped => [s[0]] + StripComments(s[1..], InString)
      case InLine => if s[0] == '\n' then "\n" + StripComments(s[1..], InCode) else StripComments(s[1..], InLine)
      case InBlock(star) =>
        if star && s[0] == '/' then StripComments(s[1..], InCode)
        else StripComments(s[1..], InBlock(s[0] == '*'))
  }

  function InsideString(c: char): State {
    if c == '\\' then Escaped else if c == '"' then InCode else InString
  }

  predicate OpensLine(s: string) {
    |s| >= 2 && s[0] == '/' && s[1] == '/'
  }

  predicate OpensBlock(s: string) {
    |s| >= 2 && s[0] == '/' && s[1] == '*'
  }

  /** Where a scan of plain JSON stands after one more character. */
  function JsonNext(st: State, c: char): State {
    match st
    case InString => InsideString(c)
    case Escaped => InString
    case _ => if c == '"' then InString else InCode
  }

  /** The character a comma is judged by: the first one after it that is not whitespace. */
  function NextInk(s: string): Option<char> {
    if s == "" then None else if IsWhitespace(s[0]) then NextInk(s[1..]) else Some(s[0])
  }

  predicate Closes(c: Option<char>) {
    c == Some('}') || c == Some(']')
  }

  /** A comma standing first in `s`, in code, that only whitespace separates from a closing bracket. */
  predicate TrailsHere(s: string, st: State) {
    s != "" && st == InCode && s[0] == ',' && Closes(NextInk(s[1..]))
  }

  /** What the trailing-comma pass writes from state `st` on. */
  function StripCommas(s: string, st: State): string {
    if s == "" then ""
    else if TrailsHere(s, st) then StripCommas(s[1..], st)
    else [s[0]] + StripCommas(s[1..], JsonNext(st, s[0]))
  }

  function Strip(text: string): string {
    StripCommas(StripComments(text, InCode), InCode)
  }

  // ----- The loops -----

  function StateOf(inString: bool, escaped: bool): State {
    if escaped then Escaped else if inString then InString else InCode
  }

  // Each step of a loop writes `out + piece` and goes on from a later index in a new state.

  lemma CommentsStep(text: string, i: nat, st: State)
    requires i < |text|
    ensures var c := text[i];
            StripComments(text[i..], st) ==
              match st
              case InCode =>
                if c == '"' then [c] + StripComments(text[i + 1..], InString)
                else if c == '/' && i + 1 < |text| && text[i + 1] == '/' then StripComments(text[i + 1..], InLine)
                else if c == '/' && i + 1 < |text| && text[i + 1] == '*'
                then StripComments(text[i + 2..], InBlock(false))
                else [c] + StripComments(text[i + 1..], InCode)
              case InString => [c] + StripComments(text[i + 1..], InsideString(c))
              case Escaped => [c] + StripComments(text[i + 1..], InString)
              case InLine =>
                if c == '\n' then "\n" + StripComments(text[i + 1..], InCode) else StripComments(text[i + 1..], InLine)
              case InBlock(star) =>
                if star && c == '/' then StripComments(text[i + 1..], InCode)
                else StripComments(text[i + 1..], InBlock(c == '*'))
  {
    var rest := text[i..];
    assert rest[1..] == text[i + 1..];
    if i + 1 < |text| {
      assert rest[2..] == text[i + 2..];
    }
  }

  lemma CommasStep(text: string, i: nat, st: State)
    requires i < |text|
    ensures StripCommas(text[i..], st) ==
            if st == InCode && text[i] == ',' && Closes(NextInk(text[i + 1..])) then StripCommas(text[i + 1..], st)
            else [text[i]] + StripCommas(text[i + 1..], JsonNext(st, text[i]))
  {
    assert text[i..][1..] == text[i + 1..];
  }

  lemma Append(out: string, c: char, rest: string)
    ensures out + ([c] + rest) == (out + [c]) + rest
  {
  }

  method StripCommentsLoop(text: string) returns (out: string)
    ensures out == StripComments(text, InCode)
  {
    out := "";
    var inString, escaped := false, false;
    var i := 0;
    while i < |text|
      invariant 0 <= i <= |text|
      invariant escaped ==> inString
      invariant StripComments(text, InCode) == out + StripComments(text[i..], StateOf(inString, escaped))
    {
      var c := text[i];
      CommentsStep(text, i, StateOf(inString, escaped));
      Append(out, c, StripComments(text[i + 1..], InString));
      Append(out, c, StripComments(text[i + 1..], InCode));
      Append(out, c, StripComments(text[i + 1..], InsideString(c)));
      i := i + 1;
      if inString {
        out := out + [c];
        if escaped {
          escaped := false;
        } else if c == '\\' {
          escaped := true;
        } else if c == '"' {
          inString := false;
        }
      } else if c == '"' {
        inString := true;
        out := out + [c];
      } else if c == '/' && i < |text| && text[i] == '/' {
        i, out := SkipLine(text, i, out);
      } else if c == '/' && i < |text| && text[i] == '*' {
        i := SkipBlock(text, i + 1);
      } else {
        out := out + [c];
      }
    }
  }

  /** The inner loop over a line comment: it drops everything up to the newline, which it keeps. */
  method SkipLine(text: string, start: nat, before: string) returns (i: nat, out: string)
    requires start <= |text|
    ensures start <= i <= |text|
    ensures before + StripComments(text[start..], InLine) == out + StripComments(text[i..], InCode)
  {
    i, out := start, before;
    while i < |text|
      invariant start <= i <= |text| && out == before
      invariant StripComments(text[start..], InLine) == StripComments(text[i..], InLine)
    {
      CommentsStep(text, i, InLine);
      var c := text[i];
      i := i + 1;
      if c == '\n' {
        Append(out, c, StripComments(text[i..], InCode));
        out := out + [c];
        return;
      }
    }
  }

  /** The inner loop over a block comment: it drops everything up to and with the closing `*` and `/`. */
  method SkipBlock(text: string, start: nat) returns (i: nat)
    requires start <= |text|
    ensures start <= i <= |text|
    ensures StripComments(text[start..], InBlock(false)) == StripComments(text[i..], InCode)
  {
    i := start;
    var prev := '\0';
    while i < |text|
      invariant start <= i <= |text|
      invariant StripComments(text[start..], InBlock(false)) == StripComments(text[i..], InBlock(prev == '*'))
    {
      CommentsStep(text, i, InBlock(prev == '*'));
      var c := text[i];
      i := i + 1;
      if prev == '*' && c == '/' {
        return;
      }
      prev := c;
    }
  }

  method StripTrailingCommas(text: string) returns (out: string)
    ensures out == StripCommas(text, InCode)
  {
    out := "";
    var inString, escaped := false, false;
    for i := 0 to |text|
      invariant escaped ==> inString
      invariant StripCommas(text, InCode) == out + StripCommas(text[i..], StateOf(inString, escaped))
    {
      var c := text[i];
      CommasStep(text, i, StateOf(inString, escaped));
      Append(out, c, StripCommas(text[i + 1..], JsonNext(StateOf(inString, escaped), c)));
      if inString {
        out := out + [c];
        if escaped {
          escaped := false;
        } else if c == '\\' {
          escaped := true;
        } else if c == '"' {
          inString := false;
        }
      } else if c == '"' {
        inString := true;
        out := out + [c];
      } else if c == ',' {
        var next := NextInk(text[i + 1..]);
        if next != Some('}') && next != Some(']') {
          out := out + [c];
        }
      } else {
        out := out + [c];
      }
    }
  }

  method StripJsonc(text: string) returns (out: string)
    ensures out == Strip(text)
  {
    var uncommented := StripCommentsLoop(text);
    out := StripTrailingCommas(uncommented);
  }
}
