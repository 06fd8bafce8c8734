/**
 The grounding verdict, said of what each binding's own resolver answers (`src/grounding.rs`): which
 question it is asked, and which answers count.
 */
module GroundingAnswers {
  import opened Basics
  import opened Text
  import opened Prl
  import opened Adapter
  import opened GroundingSchema
  import opened ClaimVariables
  import opened Drafts
  import opened Grounding

  // ----- The types a predicate's parameters are expected to have -----

  /** The argument is a variable over a resolved sort, whose first binding is to `ty`. */
  ghost predicate ArgumentIs(
    binders: seq<Binder>, arg: string, bindings: seq<Binding>, sorts: map<string, TypeResolution>, ty: string)
  {
    exists v, k: nat :: v in binders && v.name == Trim(arg) && BoundTo(v, bindings, sorts, ty, k)
  }

  ghost predicate BoundTo(
    v: Binder, bindings: seq<Binding>, sorts: map<string, TypeResolution>, ty: string, k: nat)
  {
    && v.sort.Some? && v.sort.value in sorts && !sorts[v.sort.value].NoType?
    && FirstBinding(bindings, v.sort.value, k)
    && ty == Trim(bindings[k].observable) && ty != ""
  }

  lemma NamedBinderIs(binders: seq<Binder>, name: string, v: Binder)
    requires Distinct(binders)
    ensures v in binders && v.name == name <==>
            FindBinder(binders, name).Some? && binders[FindBinder(binders, name).value] == v
  {
    if v in binders && v.name == name {
      var i :| 0 <= i < |binders| && binders[i] == v;
      assert FindBinder(binders, name).Some?;
      assert binders[FindBinder(binders, name).value].name == name;
    }
  }

  lemma BoundToIs(
    binders: seq<Binder>, arg: string, bindings: seq<Binding>, sorts: map<string, TypeResolution>, ty: string,
    v: Binder)
    requires FindBinder(binders, Trim(arg)).Some? && binders[FindBinder(binders, Trim(arg)).value] == v
    ensures ArgumentType(binders, arg, bindings, sorts) == Some(ty) <==>
            exists k: nat :: BoundTo(v, bindings, sorts, ty, k)
  {
    if v.sort.Some? {
      forall k: nat ensures FirstBinding(bindings, v.sort.value, k) <==>
                            FindBinding(bindings, v.sort.value) == Some(k)
      {
        FirstBindingIs(bindings, v.sort.value, k);
      }
      if ArgumentType(binders, arg, bindings, sorts) == Some(ty) {
        assert BoundTo(v, bindings, sorts, ty, FindBinding(bindings, v.sort.value).value);
      }
    }
  }

  lemma ArgumentTypeIs(
    binders: seq<Binder>, arg: string, bindings: seq<Binding>, sorts: map<string, TypeResolution>, ty: string)
    requires Distinct(binders)
    ensures ArgumentType(binders, arg, bindings, sorts) == Some(ty) <==> ArgumentIs(binders, arg, bindings, sorts, ty)
  {
    forall v ensures v in binders && v.name == Trim(arg) <==>
                     FindBinder(binders, Trim(arg)).Some? && binders[FindBinder(binders, Trim(arg)).value] == v
    {
      NamedBinderIs(binders, Trim(arg), v);
    }
    if FindBinder(binders, Trim(arg)).Some? {
      BoundToIs(binders, arg, bindings, sorts, ty, binders[FindBinder(binders, Trim(arg)).value]);
    }
  }

  /** Some application of `symbol` puts a variable of type `ty` at position `i`. */
  ghost predicate Contributes(
    req: Requirement, bindings: seq<Binding>, sorts: map<string, TypeResolution>, symbol: string, alnum: CharClass,
    i: nat, ty: string)
  {
    exists p, a :: p in req.require && PutsAt(req, bindings, sorts, symbol, alnum, i, ty, p, a)
  }

  lemma {:induction false} ApplicationsAre(binders: seq<Binder>, atoms: seq<Atom>, symbol: string, app: Application)
    ensures app in ApplicationsIn(binders, atoms, symbol) <==>
            exists a :: a in atoms && a.name == symbol && app == Application(binders, a.args)
  {
    if atoms != [] {
      var last, before := atoms[|atoms| - 1], atoms[..|atoms| - 1];
      ApplicationsAre(binders, before, symbol, app);
      assert forall a :: a in atoms <==> a == last || a in before;
    }
  }

  lemma AppliedIs(
    req: Requirement, p: Property, symbol: string, alnum: CharClass, app: Application)
    ensures AppliedIn(req, p, symbol, alnum, app) <==>
            exists a :: a in PropertyAtoms(p) && a.name == symbol && app == Application(Binders(req, p, alnum), a.args)
  {
    ApplicationsAre(Binders(req, p, alnum), PropertyAtoms(p), symbol, app);
  }

  /** The use `a` of `symbol` in `p` puts a variable of type `ty` at position `i`. */
  ghost predicate PutsAt(
    req: Requirement, bindings: seq<Binding>, sorts: map<string, TypeResolution>, symbol: string, alnum: CharClass,
    i: nat, ty: string, p: Property, a: Atom)
  {
    && a in PropertyAtoms(p) && a.name == symbol && i < |a.args|
    && ArgumentIs(Binders(req, p, alnum), a.args[i], bindings, sorts, ty)
  }

  lemma PutsIs(
    req: Requirement, bindings: seq<Binding>, sorts: map<string, TypeResolution>, symbol: string, alnum: CharClass,
    i: nat, ty: string, p: Property, a: Atom)
    requires a in PropertyAtoms(p) && a.name == symbol
    ensures PutsAt(req, bindings, sorts, symbol, alnum, i, ty, p, a) <==>
            Contribution(Application(Binders(req, p, alnum), a.args), i, bindings, sorts) == [ty]
  {
    if i < |a.args| {
      BindersContract(req, p, alnum);
      ArgumentTypeIs(Binders(req, p, alnum), a.args[i], bindings, sorts, ty);
    }
  }

  lemma ContributedIsPut(
    req: Requirement, bindings: seq<Binding>, sorts: map<string, TypeResolution>, symbol: string, alnum: CharClass,
    i: nat, ty: string, app: Application)
    requires app in Applications(req, req.require, symbol, alnum) && Contribution(app, i, bindings, sorts) == [ty]
    ensures Contributes(req, bindings, sorts, symbol, alnum, i, ty)
  {
    ApplicationsMembers(req, req.require, symbol, alnum, app);
    var p :| p in req.require && AppliedIn(req, p, symbol, alnum, app);
    AppliedIs(req, p, symbol, alnum, app);
    var a :| a in PropertyAtoms(p) && a.name == symbol && app == Application(Binders(req, p, alnum), a.args);
    PutsIs(req, bindings, sorts, symbol, alnum, i, ty, p, a);
  }

  lemma PutIsContributed(
    req: Requirement, bindings: seq<Binding>, sorts: map<string, TypeResolution>, symbol: string, alnum: CharClass,
    i: nat, ty: string, p: Property, a: Atom)
    requires p in req.require && PutsAt(req, bindings, sorts, symbol, alnum, i, ty, p, a)
    ensures var app := Application(Binders(req, p, alnum), a.args);
            app in Applications(req, req.require, symbol, alnum) && Contribution(app, i, bindings, sorts) == [ty]
  {
    var app := Application(Binders(req, p, alnum), a.args);
    AppliedIs(req, p, symbol, alnum, app);
    ApplicationsMembers(req, req.require, symbol, alnum, app);
    PutsIs(req, bindings, sorts, symbol, alnum, i, ty, p, a);
  }

  lemma ContributesIs(
    req: Requirement, bindings: seq<Binding>, sorts: map<string, TypeResolution>, symbol: string, alnum: CharClass,
    i: nat, ty: string)
    ensures ty in Contributions(Applications(req, req.require, symbol, alnum), i, bindings, sorts) <==>
            Contributes(req, bindings, sorts, symbol, alnum, i, ty)
  {
    var apps := Applications(req, req.require, symbol, alnum);
    ContributionsMembers(apps, i, bindings, sorts, ty);
    if app :| app in apps && Contribution(app, i, bindings, sorts) == [ty] {
      ContributedIsPut(req, bindings, sorts, symbol, alnum, i, ty, app);
    }
    if p, a :| p in req.require && PutsAt(req, bindings, sorts, symbol, alnum, i, ty, p, a) {
      PutIsContributed(req, bindings, sorts, symbol, alnum, i, ty, p, a);
    }
  }

  /** `ty` is the one type the applications put at position `i`. */
  ghost predicate OnlyType(
    req: Requirement, bindings: seq<Binding>, sorts: map<string, TypeResolution>, symbol: string, alnum: CharClass,
    i: nat, ty: string)
  {
    && Contributes(req, bindings, sorts, symbol, alnum, i, ty)
    && forall t :: Contributes(req, bindings, sorts, symbol, alnum, i, t) ==> t == ty
  }

  /** One entry per declared parameter: the one type its uses contribute, when they contribute just one. */
  ghost predicate Expected(
    req: Requirement, bindings: seq<Binding>, sorts: map<string, TypeResolution>, symbol: string, alnum: CharClass,
    types: seq<Option<string>>)
  {
    && Arity(req, symbol, |types|)
    && forall i: nat, ty :: i < |types| ==>
         (types[i] == Some(ty) <==> OnlyType(req, bindings, sorts, symbol, alnum, i, ty))
  }

  /** How many parameters the first event or state of that name declares; none when there is none. */
  ghost predicate Arity(req: Requirement, symbol: string, n: nat) {
    || (exists k: nat :: Declares(req.vocabulary, symbol, k) && n == |req.vocabulary[k].params|)
    || ((forall d <- req.vocabulary :: !IsPredicate(d, symbol)) && n == 0)
  }

  lemma ArityIs(req: Requirement, symbol: string)
    ensures Arity(req, symbol, PredicateArity(req, symbol))
  {
    var k := DeclaredParamsAre(req.vocabulary, symbol);
  }

  lemma ArityIsUnique(req: Requirement, symbol: string, n: nat)
    ensures Arity(req, symbol, n) ==> n == PredicateArity(req, symbol)
  {
    var k := DeclaredParamsAre(req.vocabulary, symbol);
    forall j: nat | Declares(req.vocabulary, symbol, j)
      ensures DeclaredParams(req.vocabulary, symbol).Some? && j == k
    {
      assert req.vocabulary[j] in req.vocabulary;
    }
  }

  lemma AgreedIs(types: seq<string>, ty: string)
    ensures Agreed(types) == Some(ty) <==> ty in types && forall t <- types :: t == ty
  {
    if types != [] {
      assert types[0] in types;
    }
  }

  lemma OnlyTypeIs(
    req: Requirement, bindings: seq<Binding>, sorts: map<string, TypeResolution>, symbol: string, alnum: CharClass,
    i: nat, ty: string)
    ensures Agreed(Contributions(Applications(req, req.require, symbol, alnum), i, bindings, sorts)) == Some(ty) <==>
            OnlyType(req, bindings, sorts, symbol, alnum, i, ty)
  {
    var all := Contributions(Applications(req, req.require, symbol, alnum), i, bindings, sorts);
    forall t ensures t in all <==> Contributes(req, bindings, sorts, symbol, alnum, i, t) {
      ContributesIs(req, bindings, sorts, symbol, alnum, i, t);
    }
    AgreedIs(all, ty);
  }

  lemma FoundIsExpected(
    req: Requirement, bindings: seq<Binding>, sorts: map<string, TypeResolution>, symbol: string, alnum: CharClass)
    ensures Expected(req, bindings, sorts, symbol, alnum, ExpectedTypes(req, bindings, sorts, symbol, alnum))
  {
    var found := ExpectedTypes(req, bindings, sorts, symbol, alnum);
    ArityIs(req, symbol);
    forall i: nat, ty | i < |found|
      ensures found[i] == Some(ty) <==> OnlyType(req, bindings, sorts, symbol, alnum, i, ty)
    {
      OnlyTypeIs(req, bindings, sorts, symbol, alnum, i, ty);
    }
  }

  /** What a predicate's resolver is told to expect of its parameters, and nothing else fits the description. */
  lemma ExpectedTypesAre(
    req: Requirement, bindings: seq<Binding>, sorts: map<string, TypeResolution>, symbol: string, alnum: CharClass,
    types: seq<Option<string>>)
    ensures types == ExpectedTypes(req, bindings, sorts, symbol, alnum) <==>
            Expected(req, bindings, sorts, symbol, alnum, types)
  {
    var found := ExpectedTypes(req, bindings, sorts, symbol, alnum);
    FoundIsExpected(req, bindings, sorts, symbol, alnum);
    if Expected(req, bindings, sorts, symbol, alnum, types) {
      ArityIsUnique(req, symbol, |types|);
      SameEntries(types, found);
    }
  }

  lemma SameEntries(a: seq<Option<string>>, b: seq<Option<string>>)
    requires |a| == |b| && forall i: nat, ty :: i < |a| ==> (a[i] == Some(ty) <==> b[i] == Some(ty))
    ensures a == b
  {
    forall i: nat | i < |a| ensures a[i] == b[i] {
      if a[i].Some? {
        assert b[i] == Some(a[i].value);
      } else if b[i].Some? {
        assert a[i] == Some(b[i].value);
      }
    }
  }

  // ----- What each binding's resolver is asked and answers -----

  lemma OneBinding(bindings: seq<Binding>, b: Binding, c: Binding)
    requires DistinctSymbols(bindings) && b in bindings && c in bindings && b.symbol == c.symbol
    ensures b == c
  {
    var i :| 0 <= i < |bindings| && bindings[i] == b;
    var j :| 0 <= j < |bindings| && bindings[j] == c;
  }

  lemma CollectedAnswer<T>(bindings: seq<Binding>, part: seq<Binding>, resolve: Binding -> T, b: Binding)
    requires DistinctSymbols(bindings) && b in bindings && b in part && forall c <- part :: c in bindings
    ensures b.symbol in Collect(part, resolve) && Collect(part, resolve)[b.symbol] == resolve(b)
  {
    CollectKeys(part, resolve, b.symbol);
    var c :| c in part && c.symbol == b.symbol && Collect(part, resolve)[b.symbol] == resolve(c);
    OneBinding(bindings, b, c);
  }

  lemma WorldMembers(bindings: seq<Binding>, world: BindCategory, b: Binding)
    ensures b in InWorld(bindings, world) <==> b in bindings && b.category == world
  {
    FilterMembers(bindings, (c: Binding) => c.category == world, b);
  }

  /** The one map a binding is looked up in holds what its resolver says of its own observable. */
  ghost predicate Asked(req: Requirement, bindings: seq<Binding>, ad: Adapters, alnum: CharClass, b: Binding) {
    var r := ResolveBindings(req, bindings, ad, alnum);
    var arity := PredicateArity(req, b.symbol);
    match b.category
    case CodeWorld =>
      if IsSort(req, b.symbol) then b.symbol in r.sorts && r.sorts[b.symbol] == ad.resolveType(b.observable)
      else b.symbol in r.code && r.code[b.symbol] ==
                                 ad.resolveFn(b.observable, ExpectedTypes(req, bindings, r.sorts, b.symbol, alnum))
    case ModelWorld => b.symbol in r.model && r.model[b.symbol] == ad.resolveModel(b.observable, arity)
    case RuntimeWorld =>
      b.symbol in r.runtime && (!IsSort(req, b.symbol) ==> r.runtime[b.symbol] == ad.resolveEvent(b.observable, arity))
      && (IsSort(req, b.symbol) ==> r.runtime[b.symbol] == TraceBound)
    case UiWorld =>
      b.symbol in r.ui && r.ui[b.symbol] == ad.resolveStep(b.observable, arity, IsSort(req, b.symbol))
  }

  lemma CodeAsked(req: Requirement, bindings: seq<Binding>, ad: Adapters, alnum: CharClass, b: Binding)
    requires DistinctSymbols(bindings) && b in bindings && b.category == CodeWorld
    ensures Asked(req, bindings, ad, alnum, b)
  {
    var r := ResolveBindings(req, bindings, ad, alnum);
    var code := InWorld(bindings, CodeWorld);
    var sort, predicate' := (c: Binding) => IsSort(req, c.symbol), (c: Binding) => !IsSort(req, c.symbol);
    forall c ensures c in code <==> c in bindings && c.category == CodeWorld {
      WorldMembers(bindings, CodeWorld, c);
    }
    forall c
      ensures c in Filter(code, sort) <==> c in code && IsSort(req, c.symbol)
      ensures c in Filter(code, predicate') <==> c in code && !IsSort(req, c.symbol)
    {
      FilterMembers(code, sort, c);
      FilterMembers(code, predicate', c);
    }
    if IsSort(req, b.symbol) {
      CollectedAnswer(bindings, Filter(code, sort), (c: Binding) => ad.resolveType(c.observable), b);
    } else {
      CollectedAnswer(bindings, Filter(code, predicate'),
        (c: Binding) => ad.resolveFn(c.observable, ExpectedTypes(req, bindings, r.sorts, c.symbol, alnum)), b);
    }
  }

  lemma OthersAsked(req: Requirement, bindings: seq<Binding>, ad: Adapters, alnum: CharClass, b: Binding)
    requires DistinctSymbols(bindings) && b in bindings && b.category != CodeWorld
    ensures Asked(req, bindings, ad, alnum, b)
  {
    var part := InWorld(bindings, b.category);
    forall c ensures c in part <==> c in bindings && c.category == b.category {
      WorldMembers(bindings, b.category, c);
    }
    match b.category {
      case ModelWorld =>
        CollectedAnswer(bindings, part,
          (c: Binding) => ad.resolveModel(c.observable, PredicateArity(req, c.symbol)), b);
      case RuntimeWorld =>
        CollectedAnswer(bindings, part,
          (c: Binding) => if IsSort(req, c.symbol) then TraceBound
                          else ad.resolveEvent(c.observable, PredicateArity(req, c.symbol)), b);
      case UiWorld =>
        CollectedAnswer(bindings, part,
          (c: Binding) => ad.resolveStep(c.observable, PredicateArity(req, c.symbol), IsSort(req, c.symbol)), b);
    }
  }

  // ----- The verdict -----

  /** The symbol is a sort of the requirement: declared, the type of a parameter, or ranged over. */
  ghost predicate SortOf(req: Requirement, symbol: string) {
    && symbol != ""
    && ((exists d :: d in req.vocabulary && SpeaksOf(d, symbol))
        || exists p :: p in req.require && RangesOver(p, symbol))
  }

  /** The binding's own resolver, asked about its observable, answers that it is there. */
  ghost predicate AnsweredYes(
    req: Requirement, bindings: seq<Binding>, sorts: map<string, TypeResolution>, ad: Adapters, alnum: CharClass,
    b: Binding)
  {
    match b.category
    case CodeWorld =>
      && (SortOf(req, b.symbol) ==> !ad.resolveType(b.observable).NoType?)
      && (!SortOf(req, b.symbol) ==>
            forall types :: Expected(req, bindings, sorts, b.symbol, alnum, types) ==>
              ad.resolveFn(b.observable, types).Resolved?)
    case ModelWorld => forall n: nat :: Arity(req, b.symbol, n) ==> ad.resolveModel(b.observable, n) == Defined
    case RuntimeWorld =>
      || SortOf(req, b.symbol)
      || forall n: nat :: Arity(req, b.symbol, n) ==> ad.resolveEvent(b.observable, n) != NoEvent
    case UiWorld =>
      forall n: nat, sort :: Arity(req, b.symbol, n) && sort == SortOf(req, b.symbol) ==>
        ad.resolveStep(b.observable, n, sort) == StepFound
  }

  /** The sorts of the code, as their own resolver answers. */
  ghost predicate SortsAnswered(
    req: Requirement, bindings: seq<Binding>, ad: Adapters, sorts: map<string, TypeResolution>)
  {
    && (forall s :: s in sorts <==>
          SortOf(req, s) && exists b :: b in bindings && b.symbol == s && b.category == CodeWorld)
    && forall b :: b in bindings && b.category == CodeWorld && SortOf(req, b.symbol) ==>
         b.symbol in sorts && sorts[b.symbol] == ad.resolveType(b.observable)
  }

  ghost predicate EverythingBound(req: Requirement, bindings: seq<Binding>) {
    && (forall d <- req.vocabulary :: d.Event? || d.State? ==> exists b :: b in bindings && b.symbol == d.name)
    && forall s :: SortOf(req, s) ==> exists b :: b in bindings && b.symbol == s
  }

  lemma BoundIs(req: Requirement, bindings: seq<Binding>)
    ensures NothingUnbound(req, bindings) <==> EverythingBound(req, bindings)
  {
    forall s ensures IsSort(req, s) <==> SortOf(req, s)
             ensures s in BindableSymbols(req.vocabulary) <==>
                     exists d :: d in req.vocabulary && NamesPredicate(d, s)
    {
      GroundingSchema.SortExactly(req, s);
      BindableSymbolsAre(req.vocabulary, s);
    }
    if NothingUnbound(req, bindings) {
      forall d | d in req.vocabulary && (d.Event? || d.State?) ensures exists b :: b in bindings && b.symbol == d.name {
        assert NamesPredicate(d, d.name);
        assert d.name in BindableSymbols(req.vocabulary);
      }
      forall s | SortOf(req, s) ensures exists b :: b in bindings && b.symbol == s {
        assert IsSort(req, s);
      }
    }
    if EverythingBound(req, bindings) {
      forall s | s in SpokenSorts(req) && s != "" ensures Bound(bindings, s) {
        assert IsSort(req, s);
      }
    }
  }

  lemma GroundsIs(req: Requirement, bindings: seq<Binding>, ad: Adapters, alnum: CharClass, b: Binding)
    requires DistinctSymbols(bindings) && b in bindings
    ensures var r := ResolveBindings(req, bindings, ad, alnum);
            Grounds(req, r, b) <==> AnsweredYes(req, bindings, r.sorts, ad, alnum, b)
  {
    var r := ResolveBindings(req, bindings, ad, alnum);
    GroundingSchema.SortExactly(req, b.symbol);
    ArityIs(req, b.symbol);
    forall n: nat ensures Arity(req, b.symbol, n) <==> n == PredicateArity(req, b.symbol) {
      ArityIsUnique(req, b.symbol, n);
    }
    if b.category == CodeWorld {
      CodeAsked(req, bindings, ad, alnum, b);
      forall types ensures types == ExpectedTypes(req, bindings, r.sorts, b.symbol, alnum) <==>
                           Expected(req, bindings, r.sorts, b.symbol, alnum, types)
      {
        ExpectedTypesAre(req, bindings, r.sorts, b.symbol, alnum, types);
      }
    } else {
      OthersAsked(req, bindings, ad, alnum, b);
    }
  }

  lemma SortsAre(req: Requirement, bindings: seq<Binding>, ad: Adapters, alnum: CharClass)
    requires DistinctSymbols(bindings)
    ensures SortsAnswered(req, bindings, ad, ResolveBindings(req, bindings, ad, alnum).sorts)
  {
    var sorts := ResolveBindings(req, bindings, ad, alnum).sorts;
    forall s ensures s in sorts <==>
               SortOf(req, s) && exists b :: b in bindings && b.symbol == s && b.category == CodeWorld
    {
      WorldKeys(req, bindings, ad, alnum, s);
      GroundingSchema.SortExactly(req, s);
    }
    forall b | b in bindings && b.category == CodeWorld && SortOf(req, b.symbol)
      ensures b.symbol in sorts && sorts[b.symbol] == ad.resolveType(b.observable)
    {
      GroundingSchema.SortExactly(req, b.symbol);
      CodeAsked(req, bindings, ad, alnum, b);
    }
  }

  /**
   In every draft a run reaches, the verdict is grounded exactly when everything the requirement speaks of
   is bound and each binding's own resolver answers for its observable that it is there.
   */
  lemma GroundedExactly(
    gate: Gate, parseFidelity: string -> Option<Fidelity>, steps: seq<Step>, id: string,
    req: Requirement, ad: Adapters, alnum: CharClass)
    requires id in Run(gate, parseFidelity, steps)
    ensures var bindings := Run(gate, parseFidelity, steps)[id].bindings;
            var r := ResolveBindings(req, bindings, ad, alnum);
            && SortsAnswered(req, bindings, ad, r.sorts)
            && (IsGrounded(req, bindings, r) <==>
                  && EverythingBound(req, bindings)
                  && forall b <- bindings :: AnsweredYes(req, bindings, r.sorts, ad, alnum, b))
  {
    RunsAreSound(gate, parseFidelity, steps);
    var bindings := Run(gate, parseFidelity, steps)[id].bindings;
    assert DistinctSymbols(bindings);
    var r := ResolveBindings(req, bindings, ad, alnum);
    SortsAre(req, bindings, ad, alnum);
    BoundIs(req, bindings);
    forall b | b in bindings ensures Grounds(req, r, b) <==> AnsweredYes(req, bindings, r.sorts, ad, alnum, b) {
      GroundsIs(req, bindings, ad, alnum, b);
    }
  }
}
