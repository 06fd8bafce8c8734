/** The binding schema (`src/grounding.rs`): what a requirement lets a grounding bind. */
module GroundingSchema {
  import opened Text
  import opened Prl
  import opened Adapter

  function CategoryWorld(c: Category): BindCategory {
    match c
    case Code => CodeWorld
    case Model => ModelWorld
    case Runtime => RuntimeWorld
    case Ui => UiWorld
  }

  function DefaultFidelity(c: BindCategory): Fidelity {
    match c
    case CodeWorld => Definitional
    case ModelWorld => Definitional
    case RuntimeWorld => Observed
    case UiWorld => Probed
  }

  function DefaultCategory(req: Requirement): BindCategory {
    if req.category == [] then CodeWorld else CategoryWorld(req.category[0])
  }

  function BindableSymbols(vocabulary: seq<Decl>): seq<string> {
    if vocabulary == [] then []
    else
      (match vocabulary[0]
       case Event(name, _) => [name]
       case State(name, _) => [name]
       case Sort(_) => []
       case Identity(_) => [])
      + BindableSymbols(vocabulary[1..])
  }

  function ParamSorts(params: seq<Param>): seq<string> {
    if params == [] then [] else [Trim(params[0].ty)] + ParamSorts(params[1..])
  }

  function DeclSorts(vocabulary: seq<Decl>): seq<string> {
    if vocabulary == [] then []
    else
      (match vocabulary[0]
       case Sort(name) => [name]
       case Event(_, params) => ParamSorts(params)
       case State(_, params) => ParamSorts(params)
       case Identity(_) => [])
      + DeclSorts(vocabulary[1..])
  }

  function QuantifierSorts(props: seq<Property>): seq<string> {
    if props == [] then []
    else (if props[0].quantifier.Some? then [props[0].quantifier.value.sort] else []) + QuantifierSorts(props[1..])
  }

  /** Every sort the requirement speaks of, in the order a reader meets them, repeats and blanks included. */
  function SpokenSorts(req: Requirement): seq<string> {
    DeclSorts(req.vocabulary) + QuantifierSorts(req.require)
  }

  predicate NoRepeats(s: seq<string>) {
    forall i, j | 0 <= i < j < |s| :: s[i] != s[j]
  }

  /** Each sort that is not blank, once, in the order of their first mention. */
  function FirstMentions(spoken: seq<string>): seq<string> {
    if spoken == [] then []
    else
      var before, last := spoken[..|spoken| - 1], spoken[|spoken| - 1];
      FirstMentions(before) + if last != "" && last !in before then [last] else []
  }

  /** Where `sort` is first mentioned; past the end when it is not. */
  function FirstMention(spoken: seq<string>, sort: string): nat {
    if spoken == [] || spoken[0] == sort then 0 else 1 + FirstMention(spoken[1..], sort)
  }

  lemma {:induction false} FirstMentionSnoc(spoken: seq<string>, last: string, sort: string)
    ensures FirstMention(spoken, sort) <= |spoken|
    ensures FirstMention(spoken, sort) < |spoken| <==> sort in spoken
    ensures FirstMention(spoken + [last], sort) ==
            if sort in spoken || last == sort then FirstMention(spoken, sort) else |spoken| + 1
  {
    if spoken == [] {
      assert [] + [last] == [last] && [last][1..] == [];
    } else {
      FirstMentionSnoc(spoken[1..], last, sort);
      assert (spoken + [last])[1..] == spoken[1..] + [last];
    }
  }

  lemma {:induction false} FirstMentionsFacts(spoken: seq<string>)
    ensures var out := FirstMentions(spoken);
            && (forall s :: s in out <==> s != "" && s in spoken)
            && (forall i, j :: 0 <= i < j < |out| ==> FirstMention(spoken, out[i]) < FirstMention(spoken, out[j]))
  {
    if spoken != [] {
      var before, last := spoken[..|spoken| - 1], spoken[|spoken| - 1];
      FirstMentionsFacts(before);
      assert spoken == before + [last];
      assert forall s :: s in spoken <==> s in before || s == last;
      var out := FirstMentions(spoken);
      forall i, j | 0 <= i < j < |out| ensures FirstMention(spoken, out[i]) < FirstMention(spoken, out[j]) {
        FirstMentionSnoc(before, last, out[i]);
        FirstMentionSnoc(before, last, out[j]);
        assert out[i] == FirstMentions(before)[i] && out[i] in FirstMentions(before);
      }
    }
  }

  /** `bindable_sorts`: pushing each spoken sort that is not blank and not there yet. */
  method BindableSorts(req: Requirement) returns (out: seq<string>)
    ensures out == FirstMentions(SpokenSorts(req))
    ensures NoRepeats(out)
    ensures forall s :: s in out <==> IsSort(req, s)
    ensures forall i, j :: 0 <= i < j < |out| ==>
              FirstMention(SpokenSorts(req), out[i]) < FirstMention(SpokenSorts(req), out[j])
  {
    out := [];
    var spoken := SpokenSorts(req);
    for i := 0 to |spoken|
      invariant out == FirstMentions(spoken[..i])
    {
      FirstMentionsNext(spoken, i);
      if spoken[i] != "" && spoken[i] !in out {
        out := out + [spoken[i]];
      }
    }
    assert spoken[..|spoken|] == spoken;
    FirstMentionsFacts(spoken);
  }

  lemma FirstMentionsNext(spoken: seq<string>, i: nat)
    requires i < |spoken|
    ensures var out := FirstMentions(spoken[..i]);
            FirstMentions(spoken[..i + 1]) == if spoken[i] != "" && spoken[i] !in out then out + [spoken[i]] else out
  {
    assert spoken[..i + 1][..i] == spoken[..i];
    FirstMentionsFacts(spoken[..i]);
  }

  predicate IsSort(req: Requirement, symbol: string) {
    symbol != "" && symbol in SpokenSorts(req)
  }

  predicate IsBindable(req: Requirement, symbol: string) {
    symbol in BindableSymbols(req.vocabulary) || IsSort(req, symbol)
  }

  // ----- What is bindable, said of the requirement as it is written -----

  predicate NamesPredicate(d: Decl, symbol: string) {
    (d.Event? || d.State?) && d.name == symbol
  }

  /** The declaration speaks of this sort: it declares it, or one of its parameters is of it. */
  ghost predicate SpeaksOf(d: Decl, sort: string) {
    || (d.Sort? && d.name == sort)
    || ((d.Event? || d.State?) && exists p :: p in d.params && Trim(p.ty) == sort)
  }

  ghost predicate RangesOver(p: Property, sort: string) {
    p.quantifier.Some? && p.quantifier.value.sort == sort
  }

  lemma BindableSymbolsFirst(vocabulary: seq<Decl>, symbol: string)
    requires vocabulary != []
    ensures symbol in BindableSymbols(vocabulary) <==>
            NamesPredicate(vocabulary[0], symbol) || symbol in BindableSymbols(vocabulary[1..])
  {
  }

  lemma {:induction false} BindableSymbolsAre(vocabulary: seq<Decl>, symbol: string)
    ensures symbol in BindableSymbols(vocabulary) <==> exists d :: d in vocabulary && NamesPredicate(d, symbol)
  {
    if vocabulary != [] {
      BindableSymbolsFirst(vocabulary, symbol);
      BindableSymbolsAre(vocabulary[1..], symbol);
      assert forall d :: d in vocabulary <==> d == vocabulary[0] || d in vocabulary[1..];
    }
  }

  lemma {:induction false} ParamSortsAre(params: seq<Param>, sort: string)
    ensures sort in ParamSorts(params) <==> exists p :: p in params && Trim(p.ty) == sort
  {
    if params != [] {
      ParamSortsAre(params[1..], sort);
      assert forall p :: p in params <==> p == params[0] || p in params[1..];
    }
  }

  lemma DeclSortsFirst(vocabulary: seq<Decl>, sort: string)
    requires vocabulary != []
    ensures sort in DeclSorts(vocabulary) <==> SpeaksOf(vocabulary[0], sort) || sort in DeclSorts(vocabulary[1..])
  {
    if vocabulary[0].Event? || vocabulary[0].State? {
      ParamSortsAre(vocabulary[0].params, sort);
    }
  }

  lemma {:induction false} DeclSortsAre(vocabulary: seq<Decl>, sort: string)
    ensures sort in DeclSorts(vocabulary) <==> exists d :: d in vocabulary && SpeaksOf(d, sort)
  {
    if vocabulary != [] {
      DeclSortsFirst(vocabulary, sort);
      DeclSortsAre(vocabulary[1..], sort);
      assert forall d :: d in vocabulary <==> d == vocabulary[0] || d in vocabulary[1..];
    }
  }

  lemma QuantifierSortsFirst(props: seq<Property>, sort: string)
    requires props != []
    ensures sort in QuantifierSorts(props) <==> RangesOver(props[0], sort) || sort in QuantifierSorts(props[1..])
  {
  }

  lemma {:induction false} QuantifierSortsAre(props: seq<Property>, sort: string)
    ensures sort in QuantifierSorts(props) <==> exists p :: p in props && RangesOver(p, sort)
  {
    if props != [] {
      QuantifierSortsFirst(props, sort);
      QuantifierSortsAre(props[1..], sort);
      assert forall p :: p in props <==> p == props[0] || p in props[1..];
    }
  }

  /** A sort has a name and is declared, is the type of a declared parameter, or is ranged over. */
  lemma SortExactly(req: Requirement, symbol: string)
    ensures IsSort(req, symbol) <==>
              && symbol != ""
              && ((exists d :: d in req.vocabulary && SpeaksOf(d, symbol))
                  || exists p :: p in req.require && RangesOver(p, symbol))
  {
    DeclSortsAre(req.vocabulary, symbol);
    QuantifierSortsAre(req.require, symbol);
  }

  lemma BindableExactly(req: Requirement, symbol: string)
    ensures IsBindable(req, symbol) <==>
              || (exists d :: d in req.vocabulary && NamesPredicate(d, symbol))
              || (symbol != "" && ((exists d :: d in req.vocabulary && SpeaksOf(d, symbol))
                                   || exists p :: p in req.require && RangesOver(p, symbol)))
  {
    BindableSymbolsAre(req.vocabulary, symbol);
    SortExactly(req, symbol);
  }

  function PredicateArity(req: Requirement, symbol: string): nat {
    match DeclaredParams(req.vocabulary, symbol)
    case None => 0
    case Some(params) => |params|
  }
}
