/** The data `formal_fingerprint` hashes (`src/draft.rs`), and exactly when two drafts share it. */
module Fingerprint {
  import opened Basics
  import opened Text
  import opened Adapter
  import opened Drafts

  function CategoryName(c: BindCategory): string {
    match c
    case CodeWorld => "Code"
    case ModelWorld => "Model"
    case RuntimeWorld => "Runtime"
    case UiWorld => "Ui"
  }

  function FidelityName(f: Fidelity): string {
    match f
    case Definitional => "Definitional"
    case Observed => "Observed"
    case Probed => "Probed"
  }

  function Encode(b: Binding): string {
    b.symbol + "=" + (b.observable + "|" + CategoryName(b.category) + "|" + FidelityName(b.fidelity))
  }

  // ----- Sorting strings -----

  predicate LexLe(a: string, b: string) {
    a == "" || (b != "" && (a[0] < b[0] || (a[0] == b[0] && LexLe(a[1..], b[1..]))))
  }

  function InsertSorted(x: string, sorted: seq<string>): seq<string> {
    if sorted == [] || LexLe(x, sorted[0]) then [x] + sorted else [sorted[0]] + InsertSorted(x, sorted[1..])
  }

  function Sort(s: seq<string>): seq<string> {
    if s == [] then [] else InsertSorted(s[0], Sort(s[1..]))
  }

  predicate Sorted(s: seq<string>) {
    |s| <= 1 || (LexLe(s[0], s[1]) && Sorted(s[1..]))
  }

  lemma {:induction false} LexTotal(a: string, b: string)
    ensures LexLe(a, b) || LexLe(b, a)
  {
    if a != "" && b != "" && a[0] == b[0] {
      LexTotal(a[1..], b[1..]);
    }
  }

  lemma {:induction false} LexAntisymmetric(a: string, b: string)
    requires LexLe(a, b) && LexLe(b, a)
    ensures a == b
  {
    if a != "" {
      LexAntisymmetric(a[1..], b[1..]);
      assert a == [a[0]] + a[1..] && b == [b[0]] + b[1..];
    }
  }

  lemma {:induction false} LexTransitive(a: string, b: string, c: string)
    requires LexLe(a, b) && LexLe(b, c)
    ensures LexLe(a, c)
  {
    if a != "" && a[0] == b[0] && b[0] == c[0] {
      LexTransitive(a[1..], b[1..], c[1..]);
    }
  }

  lemma {:induction false} InsertSortedFacts(x: string, sorted: seq<string>)
    requires Sorted(sorted)
    ensures Sorted(InsertSorted(x, sorted))
    ensures multiset(InsertSorted(x, sorted)) == multiset{x} + multiset(sorted)
  {
    if sorted != [] && !LexLe(x, sorted[0]) {
      LexTotal(x, sorted[0]);
      InsertSortedFacts(x, sorted[1..]);
      assert sorted == [sorted[0]] + sorted[1..];
      var rest := InsertSorted(x, sorted[1..]);
      assert ([sorted[0]] + rest)[1..] == rest;
    } else {
      assert ([x] + sorted)[1..] == sorted;
    }
  }

  lemma {:induction false} SortFacts(s: seq<string>)
    ensures Sorted(Sort(s)) && multiset(Sort(s)) == multiset(s)
  {
    if s != [] {
      SortFacts(s[1..]);
      InsertSortedFacts(s[0], Sort(s[1..]));
      assert s == [s[0]] + s[1..];
    }
  }

  lemma {:induction false} HeadIsLeast(s: seq<string>, x: string)
    requires Sorted(s) && x in s
    ensures LexLe(s[0], x)
  {
    if x == s[0] {
      LexTotal(x, x);
    } else {
      HeadIsLeast(s[1..], x);
      LexTransitive(s[0], s[1], x);
    }
  }

  lemma SameHead(a: seq<string>, b: seq<string>)
    requires Sorted(a) && Sorted(b) && multiset(a) == multiset(b) && a != [] && b != []
    ensures a[0] == b[0]
  {
    assert a[0] in multiset(b);
    assert b[0] in multiset(a);
    HeadIsLeast(a, b[0]);
    HeadIsLeast(b, a[0]);
    LexAntisymmetric(a[0], b[0]);
  }

  lemma SameTail(a: seq<string>, b: seq<string>)
    requires a != [] && b != [] && a[0] == b[0] && multiset(a) == multiset(b)
    ensures multiset(a[1..]) == multiset(b[1..])
  {
    assert a == [a[0]] + a[1..] && b == [b[0]] + b[1..];
    assert multiset(a[1..]) == multiset(a) - multiset{a[0]};
    assert multiset(b[1..]) == multiset(b) - multiset{b[0]};
  }

  lemma {:induction false} SortedIsUnique(a: seq<string>, b: seq<string>)
    requires Sorted(a) && Sorted(b) && multiset(a) == multiset(b)
    ensures a == b
  {
    if a == [] {
      assert |b| == |multiset(b)| == |multiset(a)| == 0;
    } else {
      assert a[0] in multiset(b);
      SameHead(a, b);
      SameTail(a, b);
      SortedIsUnique(a[1..], b[1..]);
      assert a == [a[0]] + a[1..] && b == [b[0]] + b[1..];
    }
  }

  // ----- The encoding loses nothing -----

  lemma {:induction false} CutAtLast(a: string, x: string, b: string, y: string, c: char)
    requires c !in x && c !in y && a + [c] + x == b + [c] + y
    ensures a == b && x == y
    decreases |x|
  {
    var l, r := a + [c] + x, b + [c] + y;
    var n := |l| - 1;
    assert l[n] == (if x == "" then c else x[|x| - 1]) && r[n] == (if y == "" then c else y[|y| - 1]);
    if x == "" || y == "" {
      assert x == "" && y == "";
      assert l[..n] == a && r[..n] == b;
    } else {
      var x', y' := x[..|x| - 1], y[..|y| - 1];
      assert l[..n] == a + [c] + x' && r[..n] == b + [c] + y';
      CutAtLast(a, x', b, y', c);
      assert x == x' + [x[|x| - 1]] && y == y' + [y[|y| - 1]];
    }
  }

  /** With `=`-free symbols, which grounding guarantees, two bindings encode alike only if they are equal. */
  lemma EncodeInjective(a: Binding, b: Binding)
    requires '=' !in a.symbol && '=' !in b.symbol && Encode(a) == Encode(b)
    ensures a == b
  {
    var x := a.observable + "|" + CategoryName(a.category) + "|" + FidelityName(a.fidelity);
    var y := b.observable + "|" + CategoryName(b.category) + "|" + FidelityName(b.fidelity);
    CutAtFirst(a.symbol, x, b.symbol, y, '=');
    CutAtLast(a.observable + "|" + CategoryName(a.category), FidelityName(a.fidelity),
              b.observable + "|" + CategoryName(b.category), FidelityName(b.fidelity), '|');
    CutAtLast(a.observable, CategoryName(a.category), b.observable, CategoryName(b.category), '|');
    NamesDiffer(a, b);
  }

  lemma NamesDiffer(a: Binding, b: Binding)
    ensures CategoryName(a.category) == CategoryName(b.category) ==> a.category == b.category
    ensures FidelityName(a.fidelity) == FidelityName(b.fidelity) ==> a.fidelity == b.fidelity
  {
    assert CategoryName(a.category)[0] == CategoryName(b.category)[0] ==> a.category == b.category;
    assert FidelityName(a.fidelity)[0] == FidelityName(b.fidelity)[0] ==> a.fidelity == b.fidelity;
  }

  // ----- The hashed data -----

  function FormalData(d: Draft): Option<(string, seq<string>)> {
    match d.candidate
    case None => None
    case Some(candidate) => Some((candidate, Sort(Map(d.bindings, Encode))))
  }

  ghost predicate SymbolsEqualsFree(bindings: seq<Binding>) {
    forall b <- bindings :: '=' !in b.symbol
  }

  lemma {:induction false} CountWithoutRepeats(s: seq<string>, e: string)
    requires forall i, j :: 0 <= i < j < |s| ==> s[i] != s[j]
    ensures multiset(s)[e] == if e in s then 1 else 0
  {
    if s != [] {
      CountWithoutRepeats(s[1..], e);
      assert s == [s[0]] + s[1..];
    }
  }

  lemma EncodedOnce(bindings: seq<Binding>, e: string)
    requires DistinctSymbols(bindings) && SymbolsEqualsFree(bindings)
    ensures multiset(Map(bindings, Encode))[e] == if e in Map(bindings, Encode) then 1 else 0
  {
    forall i, j | 0 <= i < j < |bindings| ensures Encode(bindings[i]) != Encode(bindings[j]) {
      if Encode(bindings[i]) == Encode(bindings[j]) {
        EncodeInjective(bindings[i], bindings[j]);
      }
    }
    CountWithoutRepeats(Map(bindings, Encode), e);
  }

  lemma SameBindingsSameEncodings(a: seq<Binding>, b: seq<Binding>, e: string)
    requires forall x <- a :: x in b
    ensures e in Map(a, Encode) ==> e in Map(b, Encode)
  {
    if e in Map(a, Encode) {
      var i :| 0 <= i < |a| && Map(a, Encode)[i] == e;
      assert a[i] in b;
      var j :| 0 <= j < |b| && b[j] == a[i];
      assert Map(b, Encode)[j] == e;
    }
  }

  /**
   The hashed data is equal for two drafts exactly when their candidates and their sets of bindings
   are: re-grounding the same symbols in another order is no change, and nothing else goes unnoticed.
   */
  lemma FormalDataExactly(a: Draft, b: Draft)
    requires DistinctSymbols(a.bindings) && DistinctSymbols(b.bindings)
    requires SymbolsEqualsFree(a.bindings) && SymbolsEqualsFree(b.bindings)
    requires a.candidate.Some? && b.candidate.Some?
    ensures FormalData(a) == FormalData(b) <==>
            a.candidate == b.candidate && forall x :: x in a.bindings <==> x in b.bindings
  {
    var ea, eb := Map(a.bindings, Encode), Map(b.bindings, Encode);
    SortFacts(ea);
    SortFacts(eb);
    if FormalData(a) == FormalData(b) {
      assert multiset(ea) == multiset(eb);
      SameEncodingsSameBindings(a.bindings, b.bindings);
      SameEncodingsSameBindings(b.bindings, a.bindings);
    }
    if forall x :: x in a.bindings <==> x in b.bindings {
      forall e ensures multiset(ea)[e] == multiset(eb)[e] {
        EncodedOnce(a.bindings, e);
        EncodedOnce(b.bindings, e);
        SameBindingsSameEncodings(a.bindings, b.bindings, e);
        SameBindingsSameEncodings(b.bindings, a.bindings, e);
      }
      assert multiset(ea) == multiset(eb);
      SortedIsUnique(Sort(ea), Sort(eb));
    }
  }

  lemma SameEncodingsSameBindings(a: seq<Binding>, b: seq<Binding>)
    requires SymbolsEqualsFree(a) && SymbolsEqualsFree(b)
    requires multiset(Map(a, Encode)) == multiset(Map(b, Encode))
    ensures forall x :: x in a ==> x in b
  {
    var ea, eb := Map(a, Encode), Map(b, Encode);
    forall x | x in a ensures x in b {
      var i :| 0 <= i < |a| && a[i] == x;
      assert ea[i] in multiset(eb);
      var j :| 0 <= j < |eb| && eb[j] == ea[i];
      EncodeInjective(x, b[j]);
    }
  }

  /** Every draft a run can reach meets what the fingerprint needs of its bindings. */
  lemma ReachableDraftsFingerprint(
    gate: Gate, parseFidelity: string -> Option<Fidelity>, steps: seq<Step>, id: string)
    requires id in Run(gate, parseFidelity, steps)
    ensures var d := Run(gate, parseFidelity, steps)[id]; DistinctSymbols(d.bindings) && SymbolsEqualsFree(d.bindings)
  {
    RunsAreSound(gate, parseFidelity, steps);
    assert DraftSound(gate, Run(gate, parseFidelity, steps)[id]);
  }
}
