/**
 The grounding decision (`src/grounding.rs`): resolving every binding in its own world, describing one
 binding, and the verdict over all of them. The per-world resolvers are parameters.
 */
module Grounding {
  import opened Basics
  import opened Text
  import opened Prl
  import opened Adapter
  import opened GroundingSchema
  import opened Drafts

  datatype ModelResolution = Defined | NotDefined
  datatype RuntimeResolution = EventFound | TraceBound | NoEvent
  datatype UiResolution = StepFound | NoStep

  /** The adapters, as oracles over what each is asked. */
  datatype Adapters = Adapters(
    resolveType: string -> TypeResolution,
    resolveFn: (string, seq<Option<string>>) -> Resolution,
    resolveModel: (string, nat) -> ModelResolution,
    resolveEvent: (string, nat) -> RuntimeResolution,
    resolveStep: (string, nat, bool) -> UiResolution)

  datatype Resolutions = Resolutions(
    code: map<string, Resolution>,
    sorts: map<string, TypeResolution>,
    model: map<string, ModelResolution>,
    runtime: map<string, RuntimeResolution>,
    ui: map<string, UiResolution>)

  predicate TypeResolved(t: TypeResolution) {
    !t.NoType?
  }

  predicate EventResolved(r: RuntimeResolution) {
    r.EventFound? || r.TraceBound?
  }

  // ----- Expected parameter types -----

  /** One application of the predicate in question: the binders of its property and its arguments. */
  datatype Application = Application(binders: seq<Binder>, args: seq<string>)

  function ApplicationsIn(binders: seq<Binder>, atoms: seq<Atom>, symbol: string): seq<Application> {
    if atoms == [] then []
    else
      var last := atoms[|atoms| - 1];
      ApplicationsIn(binders, atoms[..|atoms| - 1], symbol)
      + if last.name == symbol then [Application(binders, last.args)] else []
  }

  function Applications(req: Requirement, props: seq<Property>, symbol: string, alnum: CharClass): seq<Application> {
    if props == [] then []
    else
      var last := props[|props| - 1];
      Applications(req, props[..|props| - 1], symbol, alnum)
      + ApplicationsIn(Binders(req, last, alnum), PropertyAtoms(last), symbol)
  }

  /** The type one argument contributes, when its variable's sort is bound and resolved. */
  function ArgumentType(binders: seq<Binder>, arg: string, bindings: seq<Binding>, sorts: map<string, TypeResolution>)
    : Option<string>
  {
    match FindBinder(binders, Trim(arg))
    case None => None
    case Some(i) =>
      match binders[i].sort
      case None => None
      case Some(sort) =>
        if sort !in sorts || !TypeResolved(sorts[sort]) then None
        else
          match FindBinding(bindings, sort)
          case None => None
          case Some(j) =>
            if Trim(bindings[j].observable) == "" then None else Some(Trim(bindings[j].observable))
  }

  function Contribution(app: Application, i: nat, bindings: seq<Binding>, sorts: map<string, TypeResolution>)
    : seq<string>
  {
    if i < |app.args| && ArgumentType(app.binders, app.args[i], bindings, sorts).Some?
    then [ArgumentType(app.binders, app.args[i], bindings, sorts).value]
    else []
  }

  function Contributions(apps: seq<Application>, i: nat, bindings: seq<Binding>, sorts: map<string, TypeResolution>)
    : seq<string>
  {
    if apps == [] then []
    else Contributions(apps[..|apps| - 1], i, bindings, sorts) + Contribution(apps[|apps| - 1], i, bindings, sorts)
  }

  predicate AllSame(types: seq<string>) {
    forall t <- types :: t == types[0]
  }

  /** What the uses agree on: one type, when there is at least one use and none contradicts it. */
  function Agreed(types: seq<string>): Option<string> {
    if types != [] && AllSame(types) then Some(types[0]) else None
  }

  lemma ContributionsSnoc(
    apps: seq<Application>, app: Application, i: nat, bindings: seq<Binding>, sorts: map<string, TypeResolution>)
    ensures Contributions(apps + [app], i, bindings, sorts) ==
            Contributions(apps, i, bindings, sorts) + Contribution(app, i, bindings, sorts)
  {
    assert (apps + [app])[..|apps|] == apps;
  }

  /** What the two vectors hold for a position once `types` have been contributed to it. */
  predicate Holds(expected: Option<string>, conflicting: bool, types: seq<string>) {
    expected == Agreed(types) && conflicting == !AllSame(types)
  }

  lemma HoldsNext(expected: Option<string>, conflicting: bool, types: seq<string>, ty: string)
    requires Holds(expected, conflicting, types)
    ensures conflicting ==> Holds(expected, conflicting, types + [ty])
    ensures !conflicting && expected.Some? && expected.value != ty ==> Holds(None, true, types + [ty])
    ensures !conflicting && !(expected.Some? && expected.value != ty) ==> Holds(Some(ty), false, types + [ty])
  {
    var more := types + [ty];
    assert more[|types|] == ty && ty in more;
    assert types != [] ==> more[0] == types[0];
    if !AllSame(types) {
      var t :| t in types && t != types[0];
      assert t in more;
    }
  }

  ghost predicate AllHold(
    expected: seq<Option<string>>, conflicting: seq<bool>, apps: seq<Application>,
    bindings: seq<Binding>, sorts: map<string, TypeResolution>)
  {
    && |expected| == |conflicting|
    && forall i :: 0 <= i < |expected| ==> Holds(expected[i], conflicting[i], Contributions(apps, i, bindings, sorts))
  }

  /** One position after the visit to an argument whose type is `ty`. */
  function Noted(expected: Option<string>, conflicting: bool, ty: Option<string>): (Option<string>, bool) {
    if conflicting || ty.None? then (expected, conflicting)
    else if expected.Some? && expected.value != ty.value then (None, true)
    else (ty, false)
  }

  /** What one more application does to the position of an argument it has. */
  lemma NotePosition(
    expected: Option<string>, conflicting: bool, apps: seq<Application>, app: Application, i: nat,
    bindings: seq<Binding>, sorts: map<string, TypeResolution>)
    requires i < |app.args| && Holds(expected, conflicting, Contributions(apps, i, bindings, sorts))
    ensures var noted := Noted(expected, conflicting, ArgumentType(app.binders, app.args[i], bindings, sorts));
            Holds(noted.0, noted.1, Contributions(apps + [app], i, bindings, sorts))
  {
    var types := Contributions(apps, i, bindings, sorts);
    ContributionsSnoc(apps, app, i, bindings, sorts);
    match ArgumentType(app.binders, app.args[i], bindings, sorts) {
      case None => assert types + [] == types;
      case Some(ty) => HoldsNext(expected, conflicting, types, ty);
    }
  }

  lemma NoPosition(
    apps: seq<Application>, app: Application, i: nat, bindings: seq<Binding>, sorts: map<string, TypeResolution>)
    requires i >= |app.args|
    ensures Contributions(apps + [app], i, bindings, sorts) == Contributions(apps, i, bindings, sorts)
  {
    ContributionsSnoc(apps, app, i, bindings, sorts);
    assert Contribution(app, i, bindings, sorts) == [];
  }

  /** Both vectors with the first `n` arguments noted. */
  ghost predicate NotedUpTo(
    expected: seq<Option<string>>, conflicting: seq<bool>, expected': seq<Option<string>>, conflicting': seq<bool>,
    tys: seq<Option<string>>, n: nat)
  {
    && |expected| == |conflicting| == |expected'| == |conflicting'|
    && forall j :: 0 <= j < |expected| ==>
         (expected'[j], conflicting'[j]) ==
         if j < n && j < |tys| then Noted(expected[j], conflicting[j], tys[j]) else (expected[j], conflicting[j])
  }

  lemma NotedNext(
    expected: seq<Option<string>>, conflicting: seq<bool>, e: seq<Option<string>>, c: seq<bool>,
    e': seq<Option<string>>, c': seq<bool>, tys: seq<Option<string>>, i: nat)
    requires NotedUpTo(expected, conflicting, e, c, tys, i) && i < |tys|
    requires |e'| == |c'| == |e| && forall j :: 0 <= j < |e| && j != i ==> e'[j] == e[j] && c'[j] == c[j]
    requires i < |e| ==> (e'[i], c'[i]) == Noted(e[i], c[i], tys[i])
    ensures NotedUpTo(expected, conflicting, e', c', tys, i + 1)
  {
  }

  /** The visit to one matching atom: each argument is noted at its position, unless that one conflicts. */
  method NoteAtom(
    expected: seq<Option<string>>, conflicting: seq<bool>, binders: seq<Binder>, args: seq<string>,
    bindings: seq<Binding>, sorts: map<string, TypeResolution>, ghost apps: seq<Application>)
    returns (expected': seq<Option<string>>, conflicting': seq<bool>)
    requires AllHold(expected, conflicting, apps, bindings, sorts)
    ensures |expected'| == |expected|
    ensures AllHold(expected', conflicting', apps + [Application(binders, args)], bindings, sorts)
  {
    expected', conflicting' := expected, conflicting;
    ghost var tys := ArgumentTypes(binders, args, bindings, sorts);
    for i := 0 to |args|
      invariant NotedUpTo(expected, conflicting, expected', conflicting', tys, i)
    {
      ghost var e, c := expected', conflicting';
      if i >= |expected| {
        NotedNext(expected, conflicting, e, c, e, c, tys, i);
        continue;
      }
      var ty := ArgumentType(binders, args[i], bindings, sorts);
      if conflicting'[i] || ty.None? {
        NotedNext(expected, conflicting, e, c, e, c, tys, i);
        continue;
      }
      if expected'[i].Some? && expected'[i].value != ty.value {
        expected' := expected'[i := None];
        conflicting' := conflicting'[i := true];
      } else {
        expected' := expected'[i := ty];
      }
      NotedNext(expected, conflicting, e, c, expected', conflicting', tys, i);
    }
    AllNotedHold(expected, conflicting, expected', conflicting', apps, Application(binders, args), bindings, sorts);
  }

  ghost function ArgumentTypes(
    binders: seq<Binder>, args: seq<string>, bindings: seq<Binding>, sorts: map<string, TypeResolution>)
    : (tys: seq<Option<string>>)
    ensures |tys| == |args|
  {
    seq(|args|, i requires 0 <= i < |args| => ArgumentType(binders, args[i], bindings, sorts))
  }

  lemma AllNotedHold(
    expected: seq<Option<string>>, conflicting: seq<bool>, expected': seq<Option<string>>, conflicting': seq<bool>,
    apps: seq<Application>, app: Application, bindings: seq<Binding>, sorts: map<string, TypeResolution>)
    requires AllHold(expected, conflicting, apps, bindings, sorts)
    requires NotedUpTo(expected, conflicting, expected', conflicting',
                       ArgumentTypes(app.binders, app.args, bindings, sorts), |app.args|)
    ensures AllHold(expected', conflicting', apps + [app], bindings, sorts)
  {
    forall j: nat | j < |expected|
      ensures Holds(expected'[j], conflicting'[j], Contributions(apps + [app], j, bindings, sorts))
    {
      if j < |app.args| {
        NotePosition(expected[j], conflicting[j], apps, app, j, bindings, sorts);
      } else {
        NoPosition(apps, app, j, bindings, sorts);
      }
    }
  }

  /** The walk over one property's atoms. */
  method NoteProperty(
    expected: seq<Option<string>>, conflicting: seq<bool>, prop: Property, binders: seq<Binder>, symbol: string,
    bindings: seq<Binding>, sorts: map<string, TypeResolution>, ghost apps: seq<Application>)
    returns (expected': seq<Option<string>>, conflicting': seq<bool>)
    requires AllHold(expected, conflicting, apps, bindings, sorts)
    ensures |expected'| == |expected|
    ensures AllHold(expected', conflicting',
                    apps + ApplicationsIn(binders, PropertyAtoms(prop), symbol), bindings, sorts)
  {
    expected', conflicting' := expected, conflicting;
    var atoms := PropertyAtoms(prop);
    ghost var now := apps;
    assert now == apps + ApplicationsIn(binders, atoms[..0], symbol);
    for a := 0 to |atoms|
      invariant |expected'| == |expected| && AllHold(expected', conflicting', now, bindings, sorts)
      invariant now == apps + ApplicationsIn(binders, atoms[..a], symbol)
    {
      assert atoms[..a + 1][..a] == atoms[..a];
      if atoms[a].name == symbol {
        expected', conflicting' := NoteAtom(expected', conflicting', binders, atoms[a].args, bindings, sorts, now);
        now := now + [Application(binders, atoms[a].args)];
      }
    }
    assert atoms[..|atoms|] == atoms;
  }

  lemma AllHoldIsExpected(
    req: Requirement, expected: seq<Option<string>>, conflicting: seq<bool>,
    bindings: seq<Binding>, sorts: map<string, TypeResolution>, symbol: string, alnum: CharClass)
    requires |expected| == PredicateArity(req, symbol)
    requires AllHold(expected, conflicting, Applications(req, req.require, symbol, alnum), bindings, sorts)
    ensures expected == ExpectedTypes(req, bindings, sorts, symbol, alnum)
  {
  }

  /**
   `expected_param_types`: one entry per declared parameter, and entry `i` is a type exactly when some
   use contributes one there and all uses that contribute one agree.
   */
  method ExpectedParamTypes(
    req: Requirement, bindings: seq<Binding>, sorts: map<string, TypeResolution>, symbol: string, alnum: CharClass)
    returns (expected: seq<Option<string>>)
    ensures expected == ExpectedTypes(req, bindings, sorts, symbol, alnum)
  {
    var arity := PredicateArity(req, symbol);
    expected := seq(arity, i => None);
    var conflicting := seq(arity, i => false);
    var props := req.require;
    NothingNoted(arity, bindings, sorts);
    assert props[..0] == [];
    for p := 0 to |props|
      invariant |expected| == arity
      invariant AllHold(expected, conflicting, Applications(req, props[..p], symbol, alnum), bindings, sorts)
    {
      ApplicationsNext(req, props, p, symbol, alnum);
      expected, conflicting := NoteProperty(
        expected, conflicting, props[p], Binders(req, props[p], alnum), symbol, bindings, sorts,
        Applications(req, props[..p], symbol, alnum));
    }
    assert props[..|props|] == props;
    AllHoldIsExpected(req, expected, conflicting, bindings, sorts, symbol, alnum);
  }

  lemma NothingNoted(arity: nat, bindings: seq<Binding>, sorts: map<string, TypeResolution>)
    ensures AllHold(seq(arity, i => None), seq(arity, i => false), [], bindings, sorts)
  {
  }

  lemma ApplicationsNext(req: Requirement, props: seq<Property>, p: nat, symbol: string, alnum: CharClass)
    requires p < |props|
    ensures Applications(req, props[..p + 1], symbol, alnum) ==
            Applications(req, props[..p], symbol, alnum)
            + ApplicationsIn(Binders(req, props[p], alnum), PropertyAtoms(props[p]), symbol)
  {
    assert props[..p + 1][..p] == props[..p];
  }

  function ExpectedTypes(
    req: Requirement, bindings: seq<Binding>, sorts: map<string, TypeResolution>, symbol: string, alnum: CharClass)
    : (r: seq<Option<string>>)
    ensures |r| == PredicateArity(req, symbol)
  {
    seq(PredicateArity(req, symbol), i requires 0 <= i < PredicateArity(req, symbol) =>
      Agreed(Contributions(Applications(req, req.require, symbol, alnum), i, bindings, sorts)))
  }

  lemma {:induction false} ContributionsMembers(
    apps: seq<Application>, i: nat, bindings: seq<Binding>, sorts: map<string, TypeResolution>, ty: string)
    ensures ty in Contributions(apps, i, bindings, sorts) <==>
            exists app :: app in apps && Contribution(app, i, bindings, sorts) == [ty]
  {
    if apps != [] {
      var last := apps[|apps| - 1];
      ContributionsMembers(apps[..|apps| - 1], i, bindings, sorts, ty);
      assert forall app :: app in apps <==> app == last || app in apps[..|apps| - 1];
    }
  }

  lemma AgreedBySet(a: seq<string>, b: seq<string>)
    requires forall t :: t in a <==> t in b
    ensures Agreed(a) == Agreed(b)
  {
    assert a != [] ==> a[0] in a;
    assert b != [] ==> b[0] in b;
  }

  ghost predicate AppliedIn(req: Requirement, p: Property, symbol: string, alnum: CharClass, app: Application) {
    app in ApplicationsIn(Binders(req, p, alnum), PropertyAtoms(p), symbol)
  }

  lemma {:induction false} ApplicationsMembers(
    req: Requirement, props: seq<Property>, symbol: string, alnum: CharClass, app: Application)
    ensures app in Applications(req, props, symbol, alnum) <==>
            exists p :: p in props && AppliedIn(req, p, symbol, alnum, app)
  {
    if props != [] {
      var last, before := props[|props| - 1], props[..|props| - 1];
      ApplicationsMembers(req, before, symbol, alnum, app);
      assert app in Applications(req, props, symbol, alnum) <==>
             app in Applications(req, before, symbol, alnum) || AppliedIn(req, last, symbol, alnum, app);
      assert forall p :: p in props <==> p == last || p in before;
    }
  }

  lemma ExpectedBySet(
    a: seq<Application>, b: seq<Application>, i: nat, bindings: seq<Binding>, sorts: map<string, TypeResolution>)
    requires forall app :: app in a <==> app in b
    ensures Agreed(Contributions(a, i, bindings, sorts)) == Agreed(Contributions(b, i, bindings, sorts))
  {
    forall ty ensures ty in Contributions(a, i, bindings, sorts) <==> ty in Contributions(b, i, bindings, sorts) {
      ContributionsMembers(a, i, bindings, sorts, ty);
      ContributionsMembers(b, i, bindings, sorts, ty);
    }
    AgreedBySet(Contributions(a, i, bindings, sorts), Contributions(b, i, bindings, sorts));
  }

  /** The answer does not depend on the order, or the repetition, of the properties. */
  lemma ExpectedTypesAnyOrder(
    req: Requirement, props: seq<Property>, bindings: seq<Binding>, sorts: map<string, TypeResolution>,
    symbol: string, alnum: CharClass)
    requires forall p :: p in props <==> p in req.require
    ensures ExpectedTypes(req.(require := props), bindings, sorts, symbol, alnum) ==
            ExpectedTypes(req, bindings, sorts, symbol, alnum)
  {
    var other := req.(require := props);
    assert forall p :: Binders(other, p, alnum) == Binders(req, p, alnum);
    var a, b := Applications(other, props, symbol, alnum), Applications(req, req.require, symbol, alnum);
    forall app ensures app in a <==> app in b {
      ApplicationsMembers(other, props, symbol, alnum, app);
      ApplicationsMembers(req, req.require, symbol, alnum, app);
    }
    forall i: nat ensures Agreed(Contributions(a, i, bindings, sorts)) == Agreed(Contributions(b, i, bindings, sorts)) {
      ExpectedBySet(a, b, i, bindings, sorts);
    }
  }

  /** Once two uses of a position disagree, no further use makes it known again. */
  lemma ConflictStays(types: seq<string>, more: seq<string>)
    requires types != [] && Agreed(types).None?
    ensures Agreed(types + more).None?
  {
    var t :| t in types && t != types[0];
    assert t in types + more && (types + more)[0] == types[0];
  }

  // ----- Resolving -----

  function InWorld(bindings: seq<Binding>, world: BindCategory): seq<Binding> {
    Filter(bindings, (b: Binding) => b.category == world)
  }

  /** Collecting into a map: the last binding of a symbol wins. */
  function Collect<T>(bindings: seq<Binding>, resolve: Binding -> T): map<string, T> {
    if bindings == [] then map[]
    else
      var last := bindings[|bindings| - 1];
      Collect(bindings[..|bindings| - 1], resolve)[last.symbol := resolve(last)]
  }

  function ResolveBindings(req: Requirement, bindings: seq<Binding>, ad: Adapters, alnum: CharClass): Resolutions {
    var code := InWorld(bindings, CodeWorld);
    var sorts := Collect(
      Filter(code, (b: Binding) => IsSort(req, b.symbol)),
      (b: Binding) => ad.resolveType(b.observable));
    Resolutions(
      Collect(Filter(code, (b: Binding) => !IsSort(req, b.symbol)),
              (b: Binding) => ad.resolveFn(b.observable, ExpectedTypes(req, bindings, sorts, b.symbol, alnum))),
      sorts,
      Collect(InWorld(bindings, ModelWorld),
              (b: Binding) => ad.resolveModel(b.observable, PredicateArity(req, b.symbol))),
      Collect(InWorld(bindings, RuntimeWorld),
              (b: Binding) => if IsSort(req, b.symbol) then TraceBound
                              else ad.resolveEvent(b.observable, PredicateArity(req, b.symbol))),
      Collect(InWorld(bindings, UiWorld),
              (b: Binding) => ad.resolveStep(b.observable, PredicateArity(req, b.symbol), IsSort(req, b.symbol))))
  }

  /** Whether one binding reads as resolved; the maps are asked in this order. */
  function Describe(r: Resolutions, b: Binding): bool {
    if b.symbol in r.sorts then TypeResolved(r.sorts[b.symbol])
    else if b.symbol in r.code then r.code[b.symbol].Resolved?
    else if b.symbol in r.model then r.model[b.symbol].Defined?
    else if b.symbol in r.runtime then EventResolved(r.runtime[b.symbol])
    else if b.symbol in r.ui then r.ui[b.symbol].StepFound?
    else false
  }

  // ----- The verdict -----

  function UnboundSymbols(req: Requirement, sorts: seq<string>, bindings: seq<Binding>): seq<string> {
    Filter(BindableSymbols(req.vocabulary) + sorts, IsUnbound(bindings))
  }

  function IsUnbound(bindings: seq<Binding>): string -> bool {
    (s: string) => !Bound(bindings, s)
  }

  predicate Bound(bindings: seq<Binding>, symbol: string) {
    exists b | b in bindings :: b.symbol == symbol
  }

  /** A binding is asked of its own world's map only; a missing answer is no answer. */
  predicate Grounds(req: Requirement, r: Resolutions, b: Binding) {
    match b.category
    case CodeWorld =>
      if IsSort(req, b.symbol) then b.symbol in r.sorts && TypeResolved(r.sorts[b.symbol])
      else b.symbol in r.code && r.code[b.symbol].Resolved?
    case ModelWorld => b.symbol in r.model && r.model[b.symbol].Defined?
    case RuntimeWorld => b.symbol in r.runtime && EventResolved(r.runtime[b.symbol])
    case UiWorld => b.symbol in r.ui && r.ui[b.symbol].StepFound?
  }

  datatype Verdict = Grounded | Parked(reasons: seq<string>)

  predicate NothingUnbound(req: Requirement, bindings: seq<Binding>) {
    && (forall s <- BindableSymbols(req.vocabulary) :: Bound(bindings, s))
    && (forall s <- SpokenSorts(req) :: s != "" ==> Bound(bindings, s))
  }

  /** Nothing is unbound and every binding resolves in its own world. */
  ghost predicate IsGrounded(req: Requirement, bindings: seq<Binding>, r: Resolutions) {
    NothingUnbound(req, bindings) && forall b <- bindings :: Grounds(req, r, b)
  }

  /** The symbols of the bindings that do not resolve, in binding order. */
  function NotResolved(req: Requirement, bindings: seq<Binding>, r: Resolutions): seq<string> {
    if bindings == [] then []
    else
      var last := bindings[|bindings| - 1];
      NotResolved(req, bindings[..|bindings| - 1], r) + if Grounds(req, r, last) then [] else [last.symbol]
  }

  /** The symbol behind each reason to park: what is unbound, then what does not resolve. */
  function Reasons(req: Requirement, bindings: seq<Binding>, r: Resolutions): seq<string> {
    UnboundSymbols(req, FirstMentions(SpokenSorts(req)), bindings) + NotResolved(req, bindings, r)
  }

  lemma {:induction false} NotResolvedMembers(req: Requirement, bindings: seq<Binding>, r: Resolutions, s: string)
    ensures s in NotResolved(req, bindings, r) <==> exists b :: b in bindings && b.symbol == s && !Grounds(req, r, b)
  {
    if bindings != [] {
      var before, last := bindings[..|bindings| - 1], bindings[|bindings| - 1];
      NotResolvedMembers(req, before, r, s);
      assert forall b :: b in bindings <==> b in before || b == last;
    }
  }

  /** A symbol is a reason exactly when it is unbound or one of its bindings does not resolve. */
  lemma ReasonsAre(req: Requirement, bindings: seq<Binding>, r: Resolutions, s: string)
    ensures s in Reasons(req, bindings, r) <==>
              || ((s in BindableSymbols(req.vocabulary) || IsSort(req, s)) && !Bound(bindings, s))
              || (exists b :: b in bindings && b.symbol == s && !Grounds(req, r, b))
  {
    var unbound := UnboundSymbols(req, FirstMentions(SpokenSorts(req)), bindings);
    var others := NotResolved(req, bindings, r);
    UnboundMembers(req, bindings, s);
    NotResolvedMembers(req, bindings, r, s);
    assert s in unbound + others <==> s in unbound || s in others;
  }

  lemma UnboundMembers(req: Requirement, bindings: seq<Binding>, s: string)
    ensures s in UnboundSymbols(req, FirstMentions(SpokenSorts(req)), bindings) <==>
            (s in BindableSymbols(req.vocabulary) || IsSort(req, s)) && !Bound(bindings, s)
  {
    var symbols, sorts := BindableSymbols(req.vocabulary), FirstMentions(SpokenSorts(req));
    FirstMentionsFacts(SpokenSorts(req));
    FilterMembers(symbols + sorts, IsUnbound(bindings), s);
    assert s in symbols + sorts <==> s in symbols || s in sorts;
    assert IsUnbound(bindings)(s) == !Bound(bindings, s);
  }

  lemma NoReasonsIsGrounded(req: Requirement, bindings: seq<Binding>, r: Resolutions)
    ensures Reasons(req, bindings, r) == [] <==> IsGrounded(req, bindings, r)
  {
    forall s ensures s in Reasons(req, bindings, r) <==>
              || ((s in BindableSymbols(req.vocabulary) || IsSort(req, s)) && !Bound(bindings, s))
              || (exists b :: b in bindings && b.symbol == s && !Grounds(req, r, b))
    {
      ReasonsAre(req, bindings, r, s);
    }
    if Reasons(req, bindings, r) == [] {
      forall b | b in bindings ensures Grounds(req, r, b) {
        assert b.symbol !in Reasons(req, bindings, r);
      }
      forall s | s in BindableSymbols(req.vocabulary) || IsSort(req, s) ensures Bound(bindings, s) {
        assert s !in Reasons(req, bindings, r);
      }
    } else {
      var s := Reasons(req, bindings, r)[0];
      assert s in Reasons(req, bindings, r);
    }
  }

  /** `verdict`, naming the symbol behind each reason. */
  method Decide(req: Requirement, bindings: seq<Binding>, r: Resolutions) returns (v: Verdict)
    ensures v.Grounded? <==> IsGrounded(req, bindings, r)
    ensures v.Parked? ==> v.reasons == Reasons(req, bindings, r)
  {
    var sorts := BindableSorts(req);
    var reasons := UnboundSymbols(req, sorts, bindings);
    ghost var unbound := reasons;
    for i := 0 to |bindings|
      invariant reasons == unbound + NotResolved(req, bindings[..i], r)
    {
      assert bindings[..i + 1][..i] == bindings[..i];
      if !Grounds(req, r, bindings[i]) {
        reasons := reasons + [bindings[i].symbol];
      }
    }
    assert bindings[..|bindings|] == bindings;
    NoReasonsIsGrounded(req, bindings, r);
    v := if reasons == [] then Grounded else Parked(reasons);
  }

  // ----- Describe and verdict never disagree -----

  lemma {:induction false} CollectKeys<T>(bindings: seq<Binding>, resolve: Binding -> T, symbol: string)
    ensures symbol in Collect(bindings, resolve) <==> Bound(bindings, symbol)
    ensures symbol in Collect(bindings, resolve) ==>
              exists b :: b in bindings && b.symbol == symbol && Collect(bindings, resolve)[symbol] == resolve(b)
  {
    if bindings != [] {
      CollectKeys(bindings[..|bindings| - 1], resolve, symbol);
      assert forall b :: b in bindings <==> b == bindings[|bindings| - 1] || b in bindings[..|bindings| - 1];
    }
  }

  /** The order in which `describe` asks the worlds. */
  function Rank(c: BindCategory): nat {
    match c
    case CodeWorld => 0
    case ModelWorld => 1
    case RuntimeWorld => 2
    case UiWorld => 3
  }

  ghost predicate BoundIn(bindings: seq<Binding>, symbol: string, world: BindCategory) {
    exists b :: b in bindings && b.symbol == symbol && b.category == world
  }

  lemma WorldKeys(req: Requirement, bindings: seq<Binding>, ad: Adapters, alnum: CharClass, symbol: string)
    ensures var r := ResolveBindings(req, bindings, ad, alnum);
            && (symbol in r.sorts <==> IsSort(req, symbol) && BoundIn(bindings, symbol, CodeWorld))
            && (symbol in r.code <==> !IsSort(req, symbol) && BoundIn(bindings, symbol, CodeWorld))
            && (symbol in r.model <==> BoundIn(bindings, symbol, ModelWorld))
            && (symbol in r.runtime <==> BoundIn(bindings, symbol, RuntimeWorld))
            && (symbol in r.ui <==> BoundIn(bindings, symbol, UiWorld))
  {
    var r := ResolveBindings(req, bindings, ad, alnum);
    var code := InWorld(bindings, CodeWorld);
    var sort, predicate' := (b: Binding) => IsSort(req, b.symbol), (b: Binding) => !IsSort(req, b.symbol);
    forall b, w ensures b in InWorld(bindings, w) <==> b in bindings && b.category == w {
      var of := (c: Binding) => c.category == w;
      FilterMembers(bindings, of, b);
    }
    forall b ensures b in Filter(code, sort) <==> b in code && IsSort(req, b.symbol)
             ensures b in Filter(code, predicate') <==> b in code && !IsSort(req, b.symbol)
    {
      FilterMembers(code, sort, b);
      FilterMembers(code, predicate', b);
    }
    CollectKeys(Filter(code, sort), (b: Binding) => ad.resolveType(b.observable), symbol);
    CollectKeys(Filter(code, predicate'),
      (b: Binding) => ad.resolveFn(b.observable, ExpectedTypes(req, bindings, r.sorts, b.symbol, alnum)), symbol);
    CollectKeys(InWorld(bindings, ModelWorld),
      (b: Binding) => ad.resolveModel(b.observable, PredicateArity(req, b.symbol)), symbol);
    CollectKeys(InWorld(bindings, RuntimeWorld),
      (b: Binding) => if IsSort(req, b.symbol) then TraceBound
                      else ad.resolveEvent(b.observable, PredicateArity(req, b.symbol)), symbol);
    CollectKeys(InWorld(bindings, UiWorld),
      (b: Binding) => ad.resolveStep(b.observable, PredicateArity(req, b.symbol), IsSort(req, b.symbol)), symbol);
  }

  ghost predicate AgreesOn(req: Requirement, bindings: seq<Binding>, b: Binding, ad: Adapters, alnum: CharClass) {
    Describe(ResolveBindings(req, bindings, ad, alnum), b) == Grounds(req, ResolveBindings(req, bindings, ad, alnum), b)
  }

  /** Another world, asked earlier, has an answer for the same symbol. */
  ghost predicate Shadowed(bindings: seq<Binding>, b: Binding) {
    exists c :: c in bindings && c.symbol == b.symbol && Rank(c.category) < Rank(b.category)
  }

  lemma UnshadowedAgrees(req: Requirement, bindings: seq<Binding>, b: Binding, ad: Adapters, alnum: CharClass)
    requires b in bindings && !Shadowed(bindings, b)
    ensures AgreesOn(req, bindings, b, ad, alnum)
  {
    WorldKeys(req, bindings, ad, alnum, b.symbol);
    assert BoundIn(bindings, b.symbol, b.category);
    forall w | Rank(w) < Rank(b.category) ensures !BoundIn(bindings, b.symbol, w) {
    }
  }

  /**
   Adapters that answer world `w` one way and every world asked before it the other way. A sort bound in
   the runtime world is always resolved, so only the interface world can be the one refused.
   */
  ghost function Contrary(w: BindCategory): Adapters {
    var at := CodeMatch("", 1, None);
    Adapters(
      (o: string) => if w == UiWorld then Declared(at) else NoType,
      (o: string, params: seq<Option<string>>) => if w == UiWorld then Resolved(at, [], Function) else Unresolved,
      (o: string, n: nat) => if w == RuntimeWorld then NotDefined else Defined,
      (o: string, n: nat) => EventFound,
      (o: string, n: nat, sort: bool) => NoStep)
  }

  lemma ContraryAnswers(req: Requirement, bindings: seq<Binding>, w: BindCategory, alnum: CharClass, symbol: string)
    ensures var r := ResolveBindings(req, bindings, Contrary(w), alnum);
            && (symbol in r.sorts ==> TypeResolved(r.sorts[symbol]) == (w == UiWorld))
            && (symbol in r.code ==> r.code[symbol].Resolved? == (w == UiWorld))
            && (symbol in r.model ==> r.model[symbol].Defined? == (w != RuntimeWorld))
            && (symbol in r.runtime ==> EventResolved(r.runtime[symbol]))
            && (symbol in r.ui ==> !r.ui[symbol].StepFound?)
  {
    var ad := Contrary(w);
    var r := ResolveBindings(req, bindings, ad, alnum);
    var code := InWorld(bindings, CodeWorld);
    CollectKeys(Filter(code, (b: Binding) => IsSort(req, b.symbol)),
      (b: Binding) => ad.resolveType(b.observable), symbol);
    CollectKeys(Filter(code, (b: Binding) => !IsSort(req, b.symbol)),
      (b: Binding) => ad.resolveFn(b.observable, ExpectedTypes(req, bindings, r.sorts, b.symbol, alnum)), symbol);
    CollectKeys(InWorld(bindings, ModelWorld),
      (b: Binding) => ad.resolveModel(b.observable, PredicateArity(req, b.symbol)), symbol);
    CollectKeys(InWorld(bindings, RuntimeWorld),
      (b: Binding) => if IsSort(req, b.symbol) then TraceBound
                      else ad.resolveEvent(b.observable, PredicateArity(req, b.symbol)), symbol);
    CollectKeys(InWorld(bindings, UiWorld),
      (b: Binding) => ad.resolveStep(b.observable, PredicateArity(req, b.symbol), IsSort(req, b.symbol)), symbol);
  }

  lemma ShadowedDisagrees(req: Requirement, bindings: seq<Binding>, b: Binding, alnum: CharClass)
    requires b in bindings && Shadowed(bindings, b)
    ensures !AgreesOn(req, bindings, b, Contrary(b.category), alnum)
  {
    WorldKeys(req, bindings, Contrary(b.category), alnum, b.symbol);
    ContraryAnswers(req, bindings, b.category, alnum, b.symbol);
    var c :| c in bindings && c.symbol == b.symbol && Rank(c.category) < Rank(b.category);
    assert BoundIn(bindings, b.symbol, b.category) && BoundIn(bindings, b.symbol, c.category);
  }

  /**
   What `describe` says of a binding and what the verdict takes it for are the same whatever the subject
   contains, exactly when no world asked earlier has a binding of the same symbol.
   */
  lemma DescribeAgreesExactly(req: Requirement, bindings: seq<Binding>, b: Binding, alnum: CharClass)
    requires b in bindings
    ensures (forall ad :: AgreesOn(req, bindings, b, ad, alnum)) <==> !Shadowed(bindings, b)
  {
    if Shadowed(bindings, b) {
      ShadowedDisagrees(req, bindings, b, alnum);
    } else {
      forall ad ensures AgreesOn(req, bindings, b, ad, alnum) {
        UnshadowedAgrees(req, bindings, b, ad, alnum);
      }
    }
  }

  /**
   In every draft any run of the lifecycle reaches, the verdict is grounded exactly when nothing is
   unbound and every binding is described as resolved.
   */
  lemma ReachableDraftsAgree(
    gate: Gate, parseFidelity: string -> Option<Fidelity>, steps: seq<Step>, id: string,
    req: Requirement, ad: Adapters, alnum: CharClass)
    requires id in Run(gate, parseFidelity, steps)
    ensures var bindings := Run(gate, parseFidelity, steps)[id].bindings;
            var r := ResolveBindings(req, bindings, ad, alnum);
            IsGrounded(req, bindings, r) <==>
              NothingUnbound(req, bindings) && forall b <- bindings :: Describe(r, b)
  {
    RunsAreSound(gate, parseFidelity, steps);
    var bindings := Run(gate, parseFidelity, steps)[id].bindings;
    assert DistinctSymbols(bindings);
    forall b | b in bindings ensures AgreesOn(req, bindings, b, ad, alnum) {
      UnshadowedAgrees(req, bindings, b, ad, alnum);
    }
  }
}
