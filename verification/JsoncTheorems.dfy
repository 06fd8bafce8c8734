/** What the JSONC stripper keeps, what it removes, and exactly when running it again changes nothing. */
module JsoncTheorems {
  import opened Basics
  import opened Text
  import opened Jsonc

  /** A comment is left behind as the code around it. */
  function Resume(st: State): State {
    if st.InLine? || st.InBlock? then InCode else st
  }

  // ----- Comments -----

  /** No comment opener where a plain JSON scan, started in `st`, stands outside strings. */
  ghost predicate NoOpener(s: string, st: State) {
    s == "" ||
    ((st == InCode ==> !OpensLine(s) && !OpensBlock(s)) && NoOpener(s[1..], JsonNext(st, s[0])))
  }

  lemma {:induction false} CommentsAreGone(s: string, st: State)
    ensures NoOpener(StripComments(s, st), Resume(st))
    decreases |s|
  {
    if s != "" {
      var out := StripComments(s, st);
      match st {
        case InCode =>
          if s[0] == '"' {
            CommentsAreGone(s[1..], InString);
            assert out[1..] == StripComments(s[1..], InString);
          } else if OpensLine(s) {
            CommentsAreGone(s[1..], InLine);
          } else if OpensBlock(s) {
            CommentsAreGone(s[2..], InBlock(false));
          } else {
            CommentsAreGone(s[1..], InCode);
            assert out[1..] == StripComments(s[1..], InCode);
          }
        case InString =>
          CommentsAreGone(s[1..], InsideString(s[0]));
          assert out[1..] == StripComments(s[1..], InsideString(s[0]));
        case Escaped =>
          CommentsAreGone(s[1..], InString);
          assert out[1..] == StripComments(s[1..], InString);
        case InLine =>
          CommentsAreGone(s[1..], if s[0] == '\n' then InCode else InLine);
          if s[0] == '\n' {
            assert out[1..] == StripComments(s[1..], InCode);
          }
        case InBlock(star) =>
          CommentsAreGone(s[1..], if star && s[0] == '/' then InCode else InBlock(s[0] == '*'));
      }
    }
  }

  lemma {:induction false} StripCommentsShortens(s: string, st: State)
    ensures |StripComments(s, st)| <= |s|
    decreases |s|
  {
    if s != "" {
      match st {
        case InCode =>
          if s[0] == '"' { StripCommentsShortens(s[1..], InString); }
          else if OpensLine(s) { StripCommentsShortens(s[1..], InLine); }
          else if OpensBlock(s) { StripCommentsShortens(s[2..], InBlock(false)); }
          else { StripCommentsShortens(s[1..], InCode); }
        case InString => StripCommentsShortens(s[1..], InsideString(s[0]));
        case Escaped => StripCommentsShortens(s[1..], InString);
        case InLine => StripCommentsShortens(s[1..], if s[0] == '\n' then InCode else InLine);
        case InBlock(star) =>
          StripCommentsShortens(s[1..], if star && s[0] == '/' then InCode else InBlock(s[0] == '*'));
      }
    }
  }

  /** The comment pass leaves a text alone exactly when it has no comment. */
  lemma {:induction false} UnchangedWithoutComments(s: string, st: State)
    requires !st.InLine? && !st.InBlock?
    ensures StripComments(s, st) == s <==> NoOpener(s, st)
    decreases |s|
  {
    if s != "" {
      if st == InCode && OpensLine(s) {
        StripCommentsShortens(s[1..], InLine);
      } else if st == InCode && OpensBlock(s) {
        StripCommentsShortens(s[2..], InBlock(false));
      } else {
        UnchangedWithoutComments(s[1..], JsonNext(st, s[0]));
        assert StripComments(s, st) == [s[0]] + StripComments(s[1..], JsonNext(st, s[0]));
        assert s == [s[0]] + s[1..];
        assert StripComments(s, st)[1..] == StripComments(s[1..], JsonNext(st, s[0]));
      }
    }
  }

  lemma StripCommentsIdempotent(s: string)
    ensures StripComments(StripComments(s, InCode), InCode) == StripComments(s, InCode)
  {
    CommentsAreGone(s, InCode);
    UnchangedWithoutComments(StripComments(s, InCode), InCode);
  }

  function Newlines(s: string): nat {
    if s == "" then 0 else (if s[0] == '\n' then 1 else 0) + Newlines(s[1..])
  }

  /** How many newlines a scan meets inside block comments. */
  function BlockNewlines(s: string, st: State): nat {
    if s == "" then 0
    else
      match st
      case InCode =>
        if s[0] == '"' then BlockNewlines(s[1..], InString)
        else if OpensLine(s) then BlockNewlines(s[1..], InLine)
        else if OpensBlock(s) then BlockNewlines(s[2..], InBlock(false))
        else BlockNewlines(s[1..], InCode)
      case InString => BlockNewlines(s[1..], InsideString(s[0]))
      case Escaped => BlockNewlines(s[1..], InString)
      case InLine => BlockNewlines(s[1..], if s[0] == '\n' then InCode else InLine)
      case InBlock(star) =>
        (if s[0] == '\n' then 1 else 0)
        + BlockNewlines(s[1..], if star && s[0] == '/' then InCode else InBlock(s[0] == '*'))
  }

  /** Line comments keep their newline; the only newlines lost are those inside block comments. */
  lemma {:induction false} NewlinesKept(s: string, st: State)
    ensures Newlines(StripComments(s, st)) + BlockNewlines(s, st) == Newlines(s)
    decreases |s|
  {
    if s != "" {
      var out := StripComments(s, st);
      match st {
        case InCode =>
          if s[0] == '"' {
            NewlinesKept(s[1..], InString);
            assert out[1..] == StripComments(s[1..], InString);
          } else if OpensLine(s) {
            NewlinesKept(s[1..], InLine);
          } else if OpensBlock(s) {
            NewlinesKept(s[2..], InBlock(false));
            assert s[1..][1..] == s[2..];
          } else {
            NewlinesKept(s[1..], InCode);
            assert out[1..] == StripComments(s[1..], InCode);
          }
        case InString =>
          NewlinesKept(s[1..], InsideString(s[0]));
          assert out[1..] == StripComments(s[1..], InsideString(s[0]));
        case Escaped =>
          NewlinesKept(s[1..], InString);
          assert out[1..] == StripComments(s[1..], InString);
        case InLine =>
          NewlinesKept(s[1..], if s[0] == '\n' then InCode else InLine);
          if s[0] == '\n' {
            assert out[1..] == StripComments(s[1..], InCode);
          }
        case InBlock(star) =>
          NewlinesKept(s[1..], if star && s[0] == '/' then InCode else InBlock(s[0] == '*'));
      }
    }
  }

  // ----- String literals -----

  /** The string literals of plain JSON text, quotes included; `sofar` is the one being read. */
  function Literals(s: string, st: State, sofar: string): seq<string> {
    if s == "" then (if Resume(st) == InCode then [] else [sofar])
    else
      match st
      case InString =>
        if InsideString(s[0]) == InCode then [sofar + [s[0]]] + Literals(s[1..], InCode, "")
        else Literals(s[1..], InsideString(s[0]), sofar + [s[0]])
      case Escaped => Literals(s[1..], InString, sofar + [s[0]])
      case _ => if s[0] == '"' then Literals(s[1..], InString, "\"") else Literals(s[1..], InCode, "")
  }

  /** The string literals of JSONC text: those that do not stand inside a comment. */
  function CommentedLiterals(s: string, st: State, sofar: string): seq<string> {
    if s == "" then (if Resume(st) == InCode then [] else [sofar])
    else
      match st
      case InString =>
        if InsideString(s[0]) == InCode then [sofar + [s[0]]] + CommentedLiterals(s[1..], InCode, "")
        else CommentedLiterals(s[1..], InsideString(s[0]), sofar + [s[0]])
      case Escaped => CommentedLiterals(s[1..], InString, sofar + [s[0]])
      case InLine => CommentedLiterals(s[1..], if s[0] == '\n' then InCode else InLine, "")
      case InBlock(star) =>
        CommentedLiterals(s[1..], if star && s[0] == '/' then InCode else InBlock(s[0] == '*'), "")
      case InCode =>
        if s[0] == '"' then CommentedLiterals(s[1..], InString, "\"")
        else if OpensLine(s) then CommentedLiterals(s[1..], InLine, "")
        else if OpensBlock(s) then CommentedLiterals(s[2..], InBlock(false), "")
        else CommentedLiterals(s[1..], InCode, "")
  }

  lemma {:induction false} CommentPassKeepsLiterals(s: string, st: State, sofar: string)
    requires Resume(st) == InCode ==> sofar == ""
    ensures Literals(StripComments(s, st), Resume(st), sofar) == CommentedLiterals(s, st, sofar)
    decreases |s|
  {
    if s != "" {
      var out := StripComments(s, st);
      match st {
        case InCode =>
          if s[0] == '"' {
            CommentPassKeepsLiterals(s[1..], InString, "\"");
            assert out[1..] == StripComments(s[1..], InString);
          } else if OpensLine(s) {
            CommentPassKeepsLiterals(s[1..], InLine, "");
          } else if OpensBlock(s) {
            CommentPassKeepsLiterals(s[2..], InBlock(false), "");
          } else {
            CommentPassKeepsLiterals(s[1..], InCode, "");
            assert out[1..] == StripComments(s[1..], InCode);
          }
        case InString =>
          var next := InsideString(s[0]);
          CommentPassKeepsLiterals(s[1..], next, if next == InCode then "" else sofar + [s[0]]);
          assert out[1..] == StripComments(s[1..], next);
        case Escaped =>
          CommentPassKeepsLiterals(s[1..], InString, sofar + [s[0]]);
          assert out[1..] == StripComments(s[1..], InString);
        case InLine =>
          CommentPassKeepsLiterals(s[1..], if s[0] == '\n' then InCode else InLine, "");
          if s[0] == '\n' {
            assert out[1..] == StripComments(s[1..], InCode);
          }
        case InBlock(star) =>
          CommentPassKeepsLiterals(s[1..], if star && s[0] == '/' then InCode else InBlock(s[0] == '*'), "");
      }
    }
  }

  lemma {:induction false} CommaPassKeepsLiterals(s: string, st: State, sofar: string)
    requires !st.InLine? && !st.InBlock?
    requires st == InCode ==> sofar == ""
    ensures Literals(StripCommas(s, st), st, sofar) == Literals(s, st, sofar)
    decreases |s|
  {
    if s != "" {
      if TrailsHere(s, st) {
        CommaPassKeepsLiterals(s[1..], st, "");
      } else {
        var next := JsonNext(st, s[0]);
        assert StripCommas(s, st)[1..] == StripCommas(s[1..], next);
        CommaPassKeepsLiterals(s[1..], next,
          if next == InCode then "" else if st == InCode then "\"" else sofar + [s[0]]);
      }
    }
  }

  /**
   Every string literal outside a comment survives character for character and in order, and nothing
   else in the output is one: both passes agree on what is inside a string.
   */
  lemma StripKeepsLiterals(text: string)
    ensures Literals(Strip(text), InCode, "") == CommentedLiterals(text, InCode, "")
  {
    CommentPassKeepsLiterals(text, InCode, "");
    CommaPassKeepsLiterals(StripComments(text, InCode), InCode, "");
  }

  // ----- Only deletes -----

  /** `a` is what is left of `b` after deleting some of its characters. */
  ghost predicate LeftOf(a: string, b: string)
    decreases |b|
  {
    a == "" || (b != "" && ((a[0] == b[0] && LeftOf(a[1..], b[1..])) || LeftOf(a, b[1..])))
  }

  lemma {:induction false} LeftOfTransitive(a: string, b: string, c: string)
    requires LeftOf(a, b) && LeftOf(b, c)
    ensures LeftOf(a, c)
    decreases |c|, |b|
  {
    if a != "" {
      if b[0] == c[0] && LeftOf(b[1..], c[1..]) {
        if a[0] == b[0] && LeftOf(a[1..], b[1..]) {
          LeftOfTransitive(a[1..], b[1..], c[1..]);
        } else {
          LeftOfTransitive(a, b[1..], c[1..]);
        }
      } else {
        LeftOfTransitive(a, b, c[1..]);
      }
    }
  }

  lemma {:induction false} CommentPassDeletes(s: string, st: State)
    ensures LeftOf(StripComments(s, st), s)
    decreases |s|
  {
    if s != "" {
      var out := StripComments(s, st);
      match st {
        case InCode =>
          if s[0] == '"' {
            CommentPassDeletes(s[1..], InString);
            assert out[1..] == StripComments(s[1..], InString);
          } else if OpensLine(s) {
            CommentPassDeletes(s[1..], InLine);
          } else if OpensBlock(s) {
            CommentPassDeletes(s[2..], InBlock(false));
            assert s[1..][1..] == s[2..];
            assert LeftOf(out, s[1..]);
          } else {
            CommentPassDeletes(s[1..], InCode);
            assert out[1..] == StripComments(s[1..], InCode);
          }
        case InString =>
          CommentPassDeletes(s[1..], InsideString(s[0]));
          assert out[1..] == StripComments(s[1..], InsideString(s[0]));
        case Escaped =>
          CommentPassDeletes(s[1..], InString);
          assert out[1..] == StripComments(s[1..], InString);
        case InLine =>
          CommentPassDeletes(s[1..], if s[0] == '\n' then InCode else InLine);
          if s[0] == '\n' {
            assert out[1..] == StripComments(s[1..], InCode);
          }
        case InBlock(star) =>
          CommentPassDeletes(s[1..], if star && s[0] == '/' then InCode else InBlock(s[0] == '*'));
      }
    }
  }

  lemma {:induction false} CommaPassDeletes(s: string, st: State)
    ensures LeftOf(StripCommas(s, st), s)
    ensures |StripCommas(s, st)| <= |s|
    decreases |s|
  {
    if s != "" {
      if TrailsHere(s, st) {
        CommaPassDeletes(s[1..], st);
      } else {
        CommaPassDeletes(s[1..], JsonNext(st, s[0]));
        assert StripCommas(s, st)[1..] == StripCommas(s[1..], JsonNext(st, s[0]));
      }
    }
  }

  lemma StripOnlyDeletes(text: string)
    ensures LeftOf(Strip(text), text)
  {
    CommentPassDeletes(text, InCode);
    CommaPassDeletes(StripComments(text, InCode), InCode);
    LeftOfTransitive(Strip(text), StripComments(text, InCode), text);
  }

  // ----- Trailing commas -----

  ghost predicate NoTrailing(s: string, st: State) {
    s == "" || (!TrailsHere(s, st) && NoTrailing(s[1..], JsonNext(st, s[0])))
  }

  function FromInk(s: string): string {
    if s != "" && IsWhitespace(s[0]) then FromInk(s[1..]) else s
  }

  /** A code comma that only whitespace separates from a comma that is itself trailing. */
  predicate StackedHere(s: string, st: State) {
    s != "" && st == InCode && s[0] == ',' && TrailsHere(FromInk(s[1..]), InCode)
  }

  ghost predicate NoStacked(s: string, st: State) {
    s == "" || (!StackedHere(s, st) && NoStacked(s[1..], JsonNext(st, s[0])))
  }

  lemma {:induction false} UnchangedWithoutTrailing(s: string, st: State)
    ensures StripCommas(s, st) == s <==> NoTrailing(s, st)
    decreases |s|
  {
    if s != "" {
      if TrailsHere(s, st) {
        CommaPassDeletes(s[1..], st);
      } else {
        UnchangedWithoutTrailing(s[1..], JsonNext(st, s[0]));
        assert s == [s[0]] + s[1..];
        assert StripCommas(s, st)[1..] == StripCommas(s[1..], JsonNext(st, s[0]));
      }
    }
  }

  /** The next ink after the pass: a trailing comma gives way to the bracket behind it. */
  lemma {:induction false} NextInkStripped(s: string)
    ensures Closes(NextInk(StripCommas(s, InCode))) <==> Closes(NextInk(s)) || TrailsHere(FromInk(s), InCode)
    decreases |s|
  {
    if s != "" {
      if TrailsHere(s, InCode) {
        NextInkStripped(s[1..]);
      } else {
        assert StripCommas(s, InCode)[1..] == StripCommas(s[1..], JsonNext(InCode, s[0]));
        if IsWhitespace(s[0]) {
          NextInkStripped(s[1..]);
        }
      }
    }
  }

  /**
   The comma pass leaves a trailing comma behind exactly when two commas were stacked, as in `[1,,]`.
   */
  lemma {:induction false} TrailingLeftExactlyWhenStacked(s: string, st: State)
    requires !st.InLine? && !st.InBlock?
    ensures NoTrailing(StripCommas(s, st), st) <==> NoStacked(s, st)
    decreases |s|
  {
    if s != "" {
      if TrailsHere(s, st) {
        TrailingLeftExactlyWhenStacked(s[1..], st);
        InkAtFront(s[1..]);
      } else {
        var next := JsonNext(st, s[0]);
        var out := StripCommas(s, st);
        assert out[1..] == StripCommas(s[1..], next);
        TrailingLeftExactlyWhenStacked(s[1..], next);
        if st == InCode && s[0] == ',' {
          NextInkStripped(s[1..]);
        }
      }
    }
  }

  lemma {:induction false} InkAtFront(s: string)
    ensures NextInk(s) == if FromInk(s) == "" then None else Some(FromInk(s)[0])
  {
    if s != "" && IsWhitespace(s[0]) {
      InkAtFront(s[1..]);
    }
  }

  // ----- The whole stripper -----

  /** Deleting a trailing comma never brings a comment opener together. */
  lemma {:induction false} CommaPassOpensNothing(s: string, st: State)
    requires !st.InLine? && !st.InBlock? && NoOpener(s, st)
    ensures NoOpener(StripCommas(s, st), st)
    decreases |s|
  {
    if s != "" {
      if TrailsHere(s, st) {
        CommaPassOpensNothing(s[1..], st);
      } else {
        var out, rest := StripCommas(s, st), StripCommas(s[1..], JsonNext(st, s[0]));
        assert out[1..] == rest;
        CommaPassOpensNothing(s[1..], JsonNext(st, s[0]));
        if st == InCode && s[0] == '/' && s[1..] != "" && TrailsHere(s[1..], InCode) {
          var after := s[1..][1..];
          InkAtFront(after);
          assert rest == StripCommas(after, InCode) && rest[0] == after[0];
          assert IsWhitespace(after[0]) || after[0] == '}' || after[0] == ']';
        }
      }
    }
  }

  /** The stripper changes nothing exactly when there is neither a comment nor a trailing comma. */
  lemma StripUnchangedExactly(text: string)
    ensures Strip(text) == text <==> NoOpener(text, InCode) && NoTrailing(text, InCode)
  {
    var t := StripComments(text, InCode);
    StripCommentsShortens(text, InCode);
    CommaPassDeletes(t, InCode);
    UnchangedWithoutComments(text, InCode);
    UnchangedWithoutTrailing(t, InCode);
    if Strip(text) == text {
      CommaPassEqualLength(t, InCode);
    }
  }

  lemma {:induction false} CommaPassEqualLength(s: string, st: State)
    requires |StripCommas(s, st)| == |s|
    ensures StripCommas(s, st) == s
    decreases |s|
  {
    if s != "" {
      if TrailsHere(s, st) {
        CommaPassDeletes(s[1..], st);
      } else {
        CommaPassEqualLength(s[1..], JsonNext(st, s[0]));
      }
    }
  }

  /** Stripping twice changes nothing more exactly when no two commas were stacked once comments are gone. */
  lemma StripIdempotentExactly(text: string)
    ensures Strip(Strip(text)) == Strip(text) <==> NoStacked(StripComments(text, InCode), InCode)
    ensures NoOpener(Strip(text), InCode)
    ensures NoTrailing(Strip(text), InCode) <==> NoStacked(StripComments(text, InCode), InCode)
  {
    var t := StripComments(text, InCode);
    CommentsAreGone(text, InCode);
    CommaPassOpensNothing(t, InCode);
    TrailingLeftExactlyWhenStacked(t, InCode);
    StripUnchangedExactly(Strip(text));
  }

  /** The smallest text on which a second run still finds work. */
  lemma StackedCommasNeedTwoRuns()
    ensures Strip("[1,,]") == "[1,]" && Strip("[1,]") == "[1]"
  {
    var a := "[1,,]";
    assert a[1..] == "1,,]" && a[2..] == ",,]" && a[3..] == ",]" && a[4..] == "]";
    NoCommentsHere("[1,,]");
    NoCommentsHere("[1,]");
    assert StripCommas("]", InCode) == "]" by { assert "]"[1..] == ""; }
    assert StripCommas(",]", InCode) == "]" by { assert ",]"[1..] == "]"; }
    assert StripCommas(",,]", InCode) == ",]" by { assert ",,]"[1..] == ",]"; }
    assert StripCommas("1,,]", InCode) == "1,]" by { assert "1,,]"[1..] == ",,]"; }
    assert StripCommas("1,]", InCode) == "1]" by { assert "1,]"[1..] == ",]"; }
    assert StripCommas("[1,]", InCode) == "[1]" by { assert "[1,]"[1..] == "1,]"; }
    assert StripCommas("[1,,]", InCode) == "[1,]" by { assert "[1,,]"[1..] == "1,,]"; }
  }

  lemma {:induction false} NoCommentsHere(s: string)
    requires forall c <- s :: c != '"' && c != '/'
    ensures StripComments(s, InCode) == s
  {
    if s != "" {
      assert forall c <- s[1..] :: c in s;
      assert s[0] in s && s == [s[0]] + s[1..];
      NoCommentsHere(s[1..]);
    }
  }
}
