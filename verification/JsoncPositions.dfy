/**
 The comma pass by position: which characters of a text it deletes, said of the characters themselves,
 and when what is left holds a comma a strict JSON parser refuses.
 */
module JsoncPositions {
  import opened Basics
  import opened Text
  import opened Jsonc
  import opened JsoncTheorems

  /** Where a scan of JSON stands before character `i`. */
  function At(s: string, st: State, i: nat): State
    requires i <= |s|
  {
    if i == 0 then st else At(s[1..], JsonNext(st, s[0]), i - 1)
  }

  predicate CommaAt(s: string, st: State, i: nat) {
    i < |s| && s[i] == ',' && At(s, st, i) == InCode
  }

  /** Character `j` comes after `i`, with whitespace only in between. */
  predicate NextAfter(s: string, i: nat, j: nat) {
    i < j < |s| && forall k :: i < k < j ==> IsWhitespace(s[k])
  }

  /** A comma outside strings, then whitespace at most, then a closing bracket. */
  ghost predicate TrailingAt(s: string, st: State, i: nat) {
    CommaAt(s, st, i) && exists j: nat :: NextAfter(s, i, j) && (s[j] == '}' || s[j] == ']')
  }

  /** A comma outside strings, then whitespace at most, then a comma that is itself trailing. */
  ghost predicate StackedAt(s: string, st: State, i: nat) {
    CommaAt(s, st, i) && exists j: nat :: NextAfter(s, i, j) && TrailingAt(s, st, j)
  }

  /** What is left from `i` on when exactly the trailing commas are deleted. */
  ghost function Kept(s: string, st: State, i: nat): string
    decreases |s| - i
  {
    if i >= |s| then "" else (if TrailingAt(s, st, i) then "" else [s[i]]) + Kept(s, st, i + 1)
  }

  // ----- Positions of a text and of what follows its first character -----

  lemma NextAfterShift(s: string, i: nat, j: nat)
    requires s != ""
    ensures NextAfter(s, i + 1, j + 1) <==> NextAfter(s[1..], i, j)
  {
    if NextAfter(s, i + 1, j + 1) {
      forall k | i < k < j ensures IsWhitespace(s[1..][k]) {
        assert IsWhitespace(s[k + 1]);
      }
    }
    if NextAfter(s[1..], i, j) {
      forall k | i + 1 < k < j + 1 ensures IsWhitespace(s[k]) {
        assert IsWhitespace(s[1..][k - 1]);
      }
    }
  }

  lemma TrailingShift(s: string, st: State, i: nat)
    requires s != ""
    ensures TrailingAt(s, st, i + 1) <==> TrailingAt(s[1..], JsonNext(st, s[0]), i)
  {
    var rest, next := s[1..], JsonNext(st, s[0]);
    assert CommaAt(s, st, i + 1) <==> CommaAt(rest, next, i);
    if TrailingAt(s, st, i + 1) {
      var j: nat :| NextAfter(s, i + 1, j) && (s[j] == '}' || s[j] == ']');
      NextAfterShift(s, i, j - 1);
      assert rest[j - 1] == s[j];
    }
    if TrailingAt(rest, next, i) {
      var j: nat :| NextAfter(rest, i, j) && (rest[j] == '}' || rest[j] == ']');
      NextAfterShift(s, i, j);
      assert s[j + 1] == rest[j];
    }
  }

  lemma StackedShift(s: string, st: State, i: nat)
    requires s != ""
    ensures StackedAt(s, st, i + 1) <==> StackedAt(s[1..], JsonNext(st, s[0]), i)
  {
    var rest, next := s[1..], JsonNext(st, s[0]);
    assert CommaAt(s, st, i + 1) <==> CommaAt(rest, next, i);
    if StackedAt(s, st, i + 1) {
      var j: nat :| NextAfter(s, i + 1, j) && TrailingAt(s, st, j);
      NextAfterShift(s, i, j - 1);
      TrailingShift(s, st, j - 1);
    }
    if StackedAt(rest, next, i) {
      var j: nat :| NextAfter(rest, i, j) && TrailingAt(rest, next, j);
      NextAfterShift(s, i, j);
      TrailingShift(s, st, j);
    }
  }

  lemma {:induction false} KeptShift(s: string, st: State, i: nat)
    requires s != ""
    ensures Kept(s, st, i + 1) == Kept(s[1..], JsonNext(st, s[0]), i)
    decreases |s| - i
  {
    if i + 1 < |s| {
      TrailingShift(s, st, i);
      KeptShift(s, st, i + 1);
    }
  }

  // ----- The first character -----

  /** `n` characters of whitespace lead up to what the scan looks at next. */
  lemma {:induction false} InkIsAt(s: string) returns (n: nat)
    ensures n <= |s| && FromInk(s) == s[n..] && forall k :: 0 <= k < n ==> IsWhitespace(s[k])
    ensures n < |s| ==> !IsWhitespace(s[n])
    ensures NextInk(s) == if n < |s| then Some(s[n]) else None
  {
    n := 0;
    if s != "" && IsWhitespace(s[0]) {
      var m := InkIsAt(s[1..]);
      n := m + 1;
      assert s[1..][m..] == s[n..];
      forall k | 0 <= k < n ensures IsWhitespace(s[k]) {
        assert k > 0 ==> s[k] == s[1..][k - 1];
      }
    }
  }

  lemma NextIs(s: string, n: nat, j: nat)
    requires s != "" && n <= |s| - 1 && forall k :: 0 <= k < n ==> IsWhitespace(s[1..][k])
    requires n < |s| - 1 ==> !IsWhitespace(s[1..][n])
    ensures n < |s| - 1 ==> NextAfter(s, 0, n + 1)
    ensures NextAfter(s, 0, j) && !IsWhitespace(s[j]) ==> j == n + 1
  {
    forall k | 0 < k < n + 1 ensures IsWhitespace(s[k]) {
      assert s[k] == s[1..][k - 1];
    }
  }

  lemma TrailingFirst(s: string, st: State)
    ensures TrailsHere(s, st) <==> TrailingAt(s, st, 0)
  {
    if s != "" {
      var n := InkIsAt(s[1..]);
      forall j: nat
        ensures n < |s| - 1 ==> NextAfter(s, 0, n + 1)
        ensures NextAfter(s, 0, j) && !IsWhitespace(s[j]) ==> j == n + 1
      {
        NextIs(s, n, j);
      }
      assert n < |s| - 1 ==> s[1..][n] == s[n + 1];
    }
  }

  /** A comma that the scan reaches over whitespace is trailing where it stands. */
  lemma {:induction false} TrailingFrom(s: string, n: nat, i: nat)
    requires n <= |s| && forall k :: 0 <= k < n ==> IsWhitespace(s[k])
    ensures TrailingAt(s, InCode, n + i) <==> TrailingAt(s[n..], InCode, i)
  {
    if n == 0 {
      assert s[0..] == s;
    } else {
      TrailingShift(s, InCode, n + i - 1);
      TrailingFrom(s[1..], n - 1, i);
      assert s[1..][n - 1..] == s[n..];
    }
  }

  lemma StackedFirst(s: string, st: State)
    ensures StackedHere(s, st) <==> StackedAt(s, st, 0)
  {
    if s != "" && st == InCode && s[0] == ',' {
      var rest := s[1..];
      var n := InkIsAt(rest);
      TrailingFirst(rest[n..], InCode);
      TrailingFrom(rest, n, 0);
      TrailingShift(s, st, n);
      forall j: nat
        ensures n < |s| - 1 ==> NextAfter(s, 0, n + 1)
        ensures NextAfter(s, 0, j) && !IsWhitespace(s[j]) ==> j == n + 1
      {
        NextIs(s, n, j);
      }
    }
  }

  // ----- The whole text -----

  lemma {:induction false} NoTrailingByPosition(s: string, st: State)
    ensures NoTrailing(s, st) <==> forall i: nat :: !TrailingAt(s, st, i)
    decreases |s|
  {
    if s != "" {
      var rest, next := s[1..], JsonNext(st, s[0]);
      TrailingFirst(s, st);
      NoTrailingByPosition(rest, next);
      if NoTrailing(s, st) {
        forall i: nat ensures !TrailingAt(s, st, i) {
          if i > 0 { TrailingShift(s, st, i - 1); }
        }
      }
      if forall i: nat :: !TrailingAt(s, st, i) {
        forall i: nat ensures !TrailingAt(rest, next, i) {
          TrailingShift(s, st, i);
          assert !TrailingAt(s, st, i + 1);
        }
      }
    }
  }

  lemma {:induction false} NoStackedByPosition(s: string, st: State)
    ensures NoStacked(s, st) <==> forall i: nat :: !StackedAt(s, st, i)
    decreases |s|
  {
    if s != "" {
      var rest, next := s[1..], JsonNext(st, s[0]);
      StackedFirst(s, st);
      NoStackedByPosition(rest, next);
      if NoStacked(s, st) {
        forall i: nat ensures !StackedAt(s, st, i) {
          if i > 0 { StackedShift(s, st, i - 1); }
        }
      }
      if forall i: nat :: !StackedAt(s, st, i) {
        forall i: nat ensures !StackedAt(rest, next, i) {
          StackedShift(s, st, i);
          assert !StackedAt(s, st, i + 1);
        }
      }
    }
  }

  /** The pass deletes exactly the trailing commas: every other character stays, in order. */
  lemma {:induction false} CommaPassByPosition(s: string, st: State)
    requires !st.InLine? && !st.InBlock?
    ensures StripCommas(s, st) == Kept(s, st, 0)
    decreases |s|
  {
    if s != "" {
      TrailingFirst(s, st);
      KeptShift(s, st, 0);
      CommaPassByPosition(s[1..], JsonNext(st, s[0]));
    }
  }

  /**
   The stripper, once comments are gone, deletes exactly the commas before a closing bracket. One is left
   exactly when two commas were stacked, so none is left when no two stand side by side.
   */
  lemma StripByPosition(text: string)
    ensures var t := StripComments(text, InCode);
            && Strip(text) == Kept(t, InCode, 0)
            && ((forall i: nat :: !TrailingAt(Strip(text), InCode, i)) <==> forall i: nat :: !StackedAt(t, InCode, i))
    ensures var t := StripComments(text, InCode);
            (forall i: nat, j: nat :: CommaAt(t, InCode, i) && CommaAt(t, InCode, j) ==> !NextAfter(t, i, j)) ==>
              forall i: nat :: !TrailingAt(Strip(text), InCode, i)
  {
    var t := StripComments(text, InCode);
    CommaPassByPosition(t, InCode);
    TrailingLeftExactlyWhenStacked(t, InCode);
    NoTrailingByPosition(Strip(text), InCode);
    NoStackedByPosition(t, InCode);
  }
}
