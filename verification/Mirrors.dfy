/**
 Redirecting predicates onto their staged logic mirrors (`with_mirrors`, `src/creusot.rs`), and when
 the redirected claim still means what the claim over the program functions means.
 */
module Mirrors {
  import opened Basics
  import opened Text
  import opened Prl
  import opened Adapter
  import opened Lowering
  import opened LoweringConditions
  import opened HarnessText
  import opened Meaning
  import opened Harness

  const MIRROR_SUFFIX := "_logic"

  function MirrorName(observable: string): string {
    LastSegment(observable) + MIRROR_SUFFIX
  }

  /** The program item's own name: the observable says it only for a free function. */
  function ProgramName(form: PredicateForm, observable: string): string {
    match form
    case Function => observable
    case Method(name, _) => name
    case VariantTest(name, _, _, _) => name
  }

  predicate Staged(sources: map<string, string>, file: string, mirror: string) {
    file in sources && Contains(sources[file], "fn " + mirror)
  }

  /** The name a mirror is derived from: the method's or the test's own, or a free function's observable. */
  predicate MirroredItem(form: PredicateForm, observable: string, name: string) {
    match form
    case Function => name == observable
    case Method(item, _) => name == item
    case VariantTest(item, _, _, _) => name == item
  }

  /** The file has been staged and declares a function of that name, or of one that starts with it. */
  ghost predicate DeclaresFn(sources: map<string, string>, file: string, name: string) {
    file in sources && exists before, after :: sources[file] == before + ("fn " + name) + after
  }

  lemma ContainsIs(s: string, word: string)
    ensures Contains(s, word) <==> exists before, after :: s == before + word + after
  {
    if i :| 0 <= i <= |s| && MatchesAt(s, i, word) {
      assert s == s[..i] + word + s[i + |word|..];
    }
    if before, after :| s == before + word + after {
      assert s[|before|..|before| + |word|] == word;
      assert MatchesAt(s, |before|, word);
    }
  }

  /**
   A symbol is redirected exactly when it is resolved and bound and the file its item is in has been staged
   with a function called as the item is, up to its last `::`, and `_logic`.
   */
  lemma RedirectedExactly(
    symbol: string, bindings: seq<Binding>, resolutions: map<string, Resolution>, sources: map<string, string>,
    mirror: string)
    ensures MirrorOf(symbol, bindings, resolutions, sources) == Some(mirror) <==>
              && symbol in resolutions && resolutions[symbol].Resolved?
              && exists k: nat, name ::
                   && FirstBinding(bindings, symbol, k)
                   && MirroredItem(resolutions[symbol].form, bindings[k].observable, name)
                   && mirror == LastSegment(name) + "_logic"
                   && DeclaresFn(sources, resolutions[symbol].at.file, mirror)
  {
    forall k: nat ensures FirstBinding(bindings, symbol, k) <==> FindBinding(bindings, symbol) == Some(k) {
      FirstBindingIs(bindings, symbol, k);
    }
    if symbol in resolutions && resolutions[symbol].Resolved? {
      var res := resolutions[symbol];
      if res.at.file in sources {
        ContainsIs(sources[res.at.file], "fn " + mirror);
      }
      if MirrorOf(symbol, bindings, resolutions, sources) == Some(mirror) {
        var k := FindBinding(bindings, symbol).value;
        assert MirroredItem(res.form, bindings[k].observable, ProgramName(res.form, bindings[k].observable));
      }
    }
  }

  function MirrorForm(form: PredicateForm, mirror: string): PredicateForm {
    match form
    case Function => Function
    case Method(_, _) => Function
    case VariantTest(_, enumName, variant, enumPath) => VariantTest(mirror, enumName, variant, enumPath)
  }

  /** The mirror a symbol is redirected onto, if it is. */
  function MirrorOf(
    symbol: string, bindings: seq<Binding>, resolutions: map<string, Resolution>, sources: map<string, string>)
    : Option<string>
  {
    if symbol !in resolutions || resolutions[symbol].Unresolved? || FindBinding(bindings, symbol).None? then None
    else
      var mirror := MirrorName(ProgramName(
        resolutions[symbol].form, bindings[FindBinding(bindings, symbol).value].observable));
      if Staged(sources, resolutions[symbol].at.file, mirror) then Some(mirror) else None
  }

  function MirroredResolution(res: Resolution, mirror: Option<string>): (r: Resolution)
    requires mirror.Some? ==> res.Resolved?
  {
    if mirror.Some? then res.(form := MirrorForm(res.form, mirror.value)) else res
  }

  /** Only the first binding of a symbol is ever looked at, and only it is edited. */
  function MirroredBinding(
    bindings: seq<Binding>, i: nat, resolutions: map<string, Resolution>, sources: map<string, string>): Binding
    requires i < |bindings|
  {
    var mirror := MirrorOf(bindings[i].symbol, bindings, resolutions, sources);
    if mirror.Some? && FindBinding(bindings, bindings[i].symbol) == Some(i)
    then bindings[i].(observable := mirror.value)
    else bindings[i]
  }

  function MirroredResolutions(
    bindings: seq<Binding>, resolutions: map<string, Resolution>, sources: map<string, string>): map<string, Resolution>
  {
    map symbol | symbol in resolutions ::
      MirroredResolution(resolutions[symbol], MirrorOf(symbol, bindings, resolutions, sources))
  }

  function MirroredBindings(
    bindings: seq<Binding>, resolutions: map<string, Resolution>, sources: map<string, string>): (r: seq<Binding>)
    ensures |r| == |bindings|
  {
    seq(|bindings|, i requires 0 <= i < |bindings| => MirroredBinding(bindings, i, resolutions, sources))
  }

  lemma {:induction false} SameSymbolsSameIndex(a: seq<Binding>, b: seq<Binding>, symbol: string)
    requires |a| == |b| && forall i :: 0 <= i < |a| ==> a[i].symbol == b[i].symbol
    ensures FindBinding(a, symbol) == FindBinding(b, symbol)
  {
    if a != [] {
      SameSymbolsSameIndex(a[1..], b[1..], symbol);
    }
  }

  // Both results with the symbols in `todo` still to be visited.

  ghost function ResolutionsBut(
    todo: set<string>, bindings: seq<Binding>, resolutions: map<string, Resolution>, sources: map<string, string>)
    : map<string, Resolution>
  {
    map symbol | symbol in resolutions ::
      if symbol in todo then resolutions[symbol]
      else MirroredResolution(resolutions[symbol], MirrorOf(symbol, bindings, resolutions, sources))
  }

  ghost function BindingsBut(
    todo: set<string>, bindings: seq<Binding>, resolutions: map<string, Resolution>, sources: map<string, string>)
    : (r: seq<Binding>)
    ensures |r| == |bindings|
    ensures forall i :: 0 <= i < |bindings| ==> r[i].symbol == bindings[i].symbol
  {
    seq(|bindings|, i requires 0 <= i < |bindings| =>
      if bindings[i].symbol in todo then bindings[i] else MirroredBinding(bindings, i, resolutions, sources))
  }

  lemma VisitResolution(
    todo: set<string>, symbol: string,
    bindings: seq<Binding>, resolutions: map<string, Resolution>, sources: map<string, string>)
    requires symbol in todo && symbol in resolutions
    ensures var mirror := MirrorOf(symbol, bindings, resolutions, sources);
            var before := ResolutionsBut(todo, bindings, resolutions, sources);
            ResolutionsBut(todo - {symbol}, bindings, resolutions, sources) ==
            before[symbol := MirroredResolution(resolutions[symbol], mirror)]
  {
  }

  lemma VisitBinding(
    todo: set<string>, symbol: string,
    bindings: seq<Binding>, resolutions: map<string, Resolution>, sources: map<string, string>)
    requires symbol in todo
    ensures var mirror := MirrorOf(symbol, bindings, resolutions, sources);
            var before := BindingsBut(todo, bindings, resolutions, sources);
            var i := FindBinding(before, symbol);
            BindingsBut(todo - {symbol}, bindings, resolutions, sources) ==
            if mirror.Some? && i.Some? then before[i.value := before[i.value].(observable := mirror.value)] else before
  {
    SameSymbolsSameIndex(BindingsBut(todo, bindings, resolutions, sources), bindings, symbol);
  }

  /** One more symbol visited: nothing changes without a mirror, and otherwise its two entries do. */
  lemma Visit(
    todo: set<string>, symbol: string,
    bindings: seq<Binding>, resolutions: map<string, Resolution>, sources: map<string, string>)
    requires symbol in todo && symbol in resolutions
    ensures var mirror, res := MirrorOf(symbol, bindings, resolutions, sources), resolutions[symbol];
            var before := BindingsBut(todo, bindings, resolutions, sources);
            var i := FindBinding(before, symbol);
            && i == FindBinding(bindings, symbol)
            && (mirror.Some? ==> i.Some?)
            && BindingsBut(todo - {symbol}, bindings, resolutions, sources) ==
               (if mirror.Some? then before[i.value := before[i.value].(observable := mirror.value)] else before)
            && ResolutionsBut(todo - {symbol}, bindings, resolutions, sources) ==
               var now := ResolutionsBut(todo, bindings, resolutions, sources);
               if mirror.Some? then now[symbol := Resolved(res.at, res.params, MirrorForm(res.form, mirror.value))]
               else now
  {
    VisitResolution(todo, symbol, bindings, resolutions, sources);
    VisitBinding(todo, symbol, bindings, resolutions, sources);
    SameSymbolsSameIndex(BindingsBut(todo, bindings, resolutions, sources), bindings, symbol);
    if MirrorOf(symbol, bindings, resolutions, sources).None? {
      var now := ResolutionsBut(todo, bindings, resolutions, sources);
      assert now[symbol := resolutions[symbol]] == now;
    }
  }

  /** `with_mirrors`, visiting the resolutions in some order and editing both copies as it goes. */
  method WithMirrors(bindings: seq<Binding>, resolutions: map<string, Resolution>, sources: map<string, string>)
    returns (outBindings: seq<Binding>, outResolutions: map<string, Resolution>)
    ensures outBindings == MirroredBindings(bindings, resolutions, sources)
    ensures outResolutions == MirroredResolutions(bindings, resolutions, sources)
  {
    outBindings, outResolutions := bindings, resolutions;
    var todo := resolutions.Keys;
    assert outBindings == BindingsBut(todo, bindings, resolutions, sources) by {
      forall i | 0 <= i < |bindings| && bindings[i].symbol !in todo
        ensures MirroredBinding(bindings, i, resolutions, sources) == bindings[i]
      {
      }
    }
    while todo != {}
      invariant todo <= resolutions.Keys
      invariant outResolutions == ResolutionsBut(todo, bindings, resolutions, sources)
      invariant outBindings == BindingsBut(todo, bindings, resolutions, sources)
      decreases |todo|
    {
      var symbol :| symbol in todo;
      Visit(todo, symbol, bindings, resolutions, sources);
      todo := todo - {symbol};
      var res := resolutions[symbol];
      var found := FindBinding(bindings, symbol);
      if res.Resolved? && found.Some? {
        var mirror := MirrorName(ProgramName(res.form, bindings[found.value].observable));
        if Staged(sources, res.at.file, mirror) {
          outResolutions := outResolutions[symbol := Resolved(res.at, res.params, MirrorForm(res.form, mirror))];
          var i := FindBinding(outBindings, symbol).value;
          outBindings := outBindings[i := outBindings[i].(observable := mirror)];
        }
      }
    }
  }

  function Mirrored(inp: Inputs, sources: map<string, string>): Inputs {
    inp.(bindings := MirroredBindings(inp.bindings, inp.resolutions, sources),
         resolutions := MirroredResolutions(inp.bindings, inp.resolutions, sources))
  }

  // ----- The path a redirected claim writes names the staged mirror -----

  lemma MirrorNameIsItem(observable: string)
    requires LastSegment(observable) != "" && !IsWhitespace(LastSegment(observable)[0])
    ensures ItemName(MirrorName(observable)) == MirrorName(observable)
  {
    var base, mirror := LastSegment(observable), MirrorName(observable);
    LastSegmentFromHasNoSep(observable, |observable|);
    forall i | 0 <= i < |mirror| ensures !MatchesAt(mirror, i, "::") {
      if i + 2 <= |base| {
        assert !MatchesAt(base, i, "::");
        assert mirror[i..i + 2] == base[i..i + 2];
      } else if i + 2 <= |mirror| {
        assert mirror[i + 1] == MIRROR_SUFFIX[i + 1 - |base|];
        assert mirror[i..i + 2][1] == mirror[i + 1];
      }
    }
    NoSepIsItsOwnSegment(mirror, |mirror|);
    assert mirror[0] == base[0] && mirror[|mirror| - 1] == 'c';
    TrimIdentity(mirror);
  }

  // ----- A link that holds on every input carries the meaning across -----

  /** The program function a resolution stands for, applied to values. */
  ghost function ProgramValue<V>(s: Subject<V>, observable: string, res: Resolution, vs: seq<V>): Option<V>
    requires res.Resolved? && FormReachable(res.form, res.at, |vs|)
  {
    match res.form
    case Function => Meaning.Applied(s.free(res.at.path.value + [ItemName(observable)]), vs)
    case Method(name, None) => Meaning.Applied(s.inherent(vs[0], name), vs)
    case Method(name, Some(q)) =>
      Meaning.Applied(s.traitFn(q.typePath.value + [ItemName(q.typeName)],
                                q.traitPath.value + [ItemName(q.traitName)], name), vs)
    case VariantTest(name, _, _, _) => Meaning.Applied(s.free(res.at.path.value + [ItemName(name)]), vs)
  }

  /** The mirror is declared with the program function's parameters and equals it wherever `pre` holds. */
  ghost predicate LinkedWhere<V(!new)>(
    s: Subject<V>, observable: string, res: Resolution, mirror: string, pre: seq<V> -> bool)
    requires res.Resolved?
  {
    res.at.path.Some? ==>
      var m := s.free(res.at.path.value + [ItemName(mirror)]);
      && m.Some?
      && m.value.modes == res.params
      && forall vs: seq<V> | |vs| == |res.params| && FormReachable(res.form, res.at, |vs|) && pre(vs) ::
           ProgramValue(s, observable, res, vs) == Some(m.value.apply(vs))
  }

  /** `vs` are the values `env` gives these names. */
  ghost predicate Given<V>(names: seq<string>, env: Env<V>, vs: seq<V>) {
    AllIn(names, env) && vs == Values(names, env)
  }

  /** The link of one atom's mirror, asked only of the arguments `env` gives the call. */
  ghost predicate AtomLinked<V(!new)>(s: Subject<V>, a: Atom, inp: Inputs, sources: map<string, string>, env: Env<V>) {
    var mirror := MirrorOf(a.name, inp.bindings, inp.resolutions, sources);
    mirror.Some? ==>
      LinkedWhere(s, inp.bindings[FindBinding(inp.bindings, a.name).value].observable,
                  inp.resolutions[a.name], mirror.value, (vs: seq<V>) => Given(TrimmedArgs(a), env, vs))
  }

  ghost predicate ClaimLinked<V(!new)>(
    s: Subject<V>, e: Expr, binders: seq<Binder>, inp: Inputs, sources: map<string, string>, env: Env<V>)
  {
    forall a <- ExprAtoms(e) :: !ReadsAsVariable(a, binders) ==> AtomLinked(s, a, inp, sources, env)
  }

  lemma MirroredLookups(inp: Inputs, sources: map<string, string>, symbol: string)
    ensures var i := FindBinding(inp.bindings, symbol);
            var mirror := MirrorOf(symbol, inp.bindings, inp.resolutions, sources);
            && FindBinding(Mirrored(inp, sources).bindings, symbol) == i
            && Mirrored(inp, sources).resolutions.Keys == inp.resolutions.Keys
            && (i.Some? ==> Mirrored(inp, sources).bindings[i.value].observable ==
                              if mirror.Some? then mirror.value else inp.bindings[i.value].observable)
            && (symbol in inp.resolutions ==>
                  Mirrored(inp, sources).resolutions[symbol] == MirroredResolution(inp.resolutions[symbol], mirror))
  {
    SameSymbolsSameIndex(Mirrored(inp, sources).bindings, inp.bindings, symbol);
  }

  lemma AtomTruthMirrored<V(!new)>(
    s: Subject<V>, vocabulary: seq<Decl>, a: Atom, binders: seq<Binder>,
    inp: Inputs, sources: map<string, string>, env: Env<V>)
    requires AtomLowers(a, binders, inp) && AtomLowers(a, binders, Mirrored(inp, sources))
    requires !ReadsAsVariable(a, binders) ==> AtomLinked(s, a, inp, sources, env)
    ensures AtomTruth(s, BinderWins, vocabulary, a, binders, Mirrored(inp, sources), env) ==
            AtomTruth(s, BinderWins, vocabulary, a, binders, inp, env)
  {
    if !ReadsAsVariable(a, binders) {
      MirroredLookups(inp, sources, a.name);
      var mirror := MirrorOf(a.name, inp.bindings, inp.resolutions, sources);
      if mirror.Some? && AllIn(TrimmedArgs(a), env) {
        RedirectedTruth(s, inp.bindings[FindBinding(inp.bindings, a.name).value].observable,
                        inp.resolutions[a.name], mirror.value, TrimmedArgs(a), env);
      }
    }
  }

  lemma RedirectedTruth<V(!new)>(
    s: Subject<V>, observable: string, res: Resolution, mirror: string, names: seq<string>, env: Env<V>)
    requires res.Resolved? && |names| == |res.params| && AllIn(names, env)
    requires FormReachable(res.form, res.at, |names|) && FormReachable(MirrorForm(res.form, mirror), res.at, |names|)
    requires LinkedWhere(s, observable, res, mirror, (vs: seq<V>) => Given(names, env, vs))
    ensures PredicateTruth(s, mirror, res.(form := MirrorForm(res.form, mirror)), Values(names, env)) ==
            PredicateTruth(s, observable, res, Values(names, env))
  {
    var vs, given := Values(names, env), (vs: seq<V>) => Given(names, env, vs);
    assert given(vs);
    assert ProgramValue(s, observable, res, vs) == Some(s.free(res.at.path.value + [ItemName(mirror)]).value.apply(vs));
  }

  /** A mirror is declared with the parameters of the function it mirrors. */
  lemma MirroredSignatureRead<V(!new)>(s: Subject<V>, a: Atom, inp: Inputs, sources: map<string, string>, env: Env<V>)
    requires AtomRead(s, a, inp, env) && AtomLinked(s, a, inp, sources, env)
    ensures AtomRead(s, a, Mirrored(inp, sources), env)
  {
    MirroredLookups(inp, sources, a.name);
  }

  lemma {:induction false} ExprTruthMirrored<V(!new)>(
    s: Subject<V>, vocabulary: seq<Decl>, e: Expr, binders: seq<Binder>,
    inp: Inputs, sources: map<string, string>, env: Env<V>)
    requires ExprLowers(e, binders, inp) && ExprLowers(e, binders, Mirrored(inp, sources))
    requires ClaimLinked(s, e, binders, inp, sources, env)
    ensures ExprTruth(s, BinderWins, vocabulary, e, binders, Mirrored(inp, sources), env) ==
            ExprTruth(s, BinderWins, vocabulary, e, binders, inp, env)
  {
    match e {
      case Apply(a) =>
        assert a in ExprAtoms(e);
        AtomTruthMirrored(s, vocabulary, a, binders, inp, sources, env);
      case Not(inner) => ExprTruthMirrored(s, vocabulary, inner, binders, inp, sources, env);
      case And(l, r) =>
        ExprTruthMirrored(s, vocabulary, l, binders, inp, sources, env);
        ExprTruthMirrored(s, vocabulary, r, binders, inp, sources, env);
      case Or(l, r) =>
        ExprTruthMirrored(s, vocabulary, l, binders, inp, sources, env);
        ExprTruthMirrored(s, vocabulary, r, binders, inp, sources, env);
    }
  }

  lemma MirroredClaimRead<V(!new)>(
    s: Subject<V>, e: Expr, binders: seq<Binder>, inp: Inputs, sources: map<string, string>, env: Env<V>)
    requires ClaimRead(s, e, binders, inp, env) && ClaimLinked(s, e, binders, inp, sources, env)
    ensures ClaimRead(s, e, binders, Mirrored(inp, sources), env)
  {
    forall a | a in ExprAtoms(e) && !ReadsAsVariable(a, binders)
      ensures AtomRead(s, a, Mirrored(inp, sources), env)
    {
      MirroredSignatureRead(s, a, inp, sources, env);
    }
  }

  /**
   Mirror redirection is sound. When the claim lowers both ways and every staged mirror equals its
   program function on the arguments `env` gives it, the claim over the mirrors has there the truth
   value of the claim over the program functions, and so has the text Creusot is given.
   */
  lemma MirrorsPreserveMeaning<V(!new)>(
    s: Subject<V>, req: Requirement, prop: Property, inp: Inputs, sources: map<string, string>,
    alnum: CharClass, env: Env<V>)
    requires LowerProperty(req, prop, inp, alnum).Ok?
    requires LowerProperty(req, prop, Mirrored(inp, sources), alnum).Ok?
    requires var binders := Binders(req, prop, alnum);
             IsInvariant(prop.pattern) ==>
               && ClaimRead(s, ClaimOf(prop.pattern), binders, inp, env)
               && ClaimLinked(s, ClaimOf(prop.pattern), binders, inp, sources, env)
    ensures IsInvariant(prop.pattern)
    ensures var binders := Binders(req, prop, alnum);
            ClaimTruth(s, BinderWins, req, prop.pattern, binders, Mirrored(inp, sources), env) ==
            ClaimTruth(s, BinderWins, req, prop.pattern, binders, inp, env)
    ensures var text := LowerProperty(req, prop, Mirrored(inp, sources), alnum).value.claim;
            && ReadAll(text).Some?
            && Eval(s, inp.prefix, ReadAll(text).value, env) ==
               ClaimTruth(s, BinderWins, req, prop.pattern, Binders(req, prop, alnum), inp, env)
  {
    var binders := Binders(req, prop, alnum);
    LowersExactlyWhen(req, prop, inp, alnum);
    LowersExactlyWhen(req, prop, Mirrored(inp, sources), alnum);
    MirroredClaimRead(s, ClaimOf(prop.pattern), binders, inp, sources, env);
    ExprTruthMirrored(s, req.vocabulary, ClaimOf(prop.pattern), binders, inp, sources, env);
    LoweringPreservesMeaning(s, req, prop, Mirrored(inp, sources), alnum, env);
  }

  // ----- When the redirected claim lowers -----

  /** What a call has to reach: its form's own paths, or as a mirror the module its item is in. */
  predicate RedirectedReachable(res: Resolution, mirror: Option<string>, arity: nat)
    requires res.Resolved?
  {
    if mirror.None? then FormReachable(res.form, res.at, arity)
    else res.at.path.Some? && (res.form.VariantTest? ==> res.form.enumPath.Some?)
  }

  predicate RedirectedLowers(a: Atom, binders: seq<Binder>, inp: Inputs, sources: map<string, string>) {
    && FindBinding(inp.bindings, a.name).Some?
    && a.name in inp.resolutions
    && inp.resolutions[a.name].Resolved?
    && |inp.resolutions[a.name].params| == |a.args|
    && (forall arg <- a.args :: Binds(binders, Trim(arg)))
    && RedirectedReachable(
         inp.resolutions[a.name], MirrorOf(a.name, inp.bindings, inp.resolutions, sources), |a.args|)
  }

  lemma MirroredCallLowers(a: Atom, binders: seq<Binder>, inp: Inputs, sources: map<string, string>)
    ensures CallLowers(a, binders, Mirrored(inp, sources)) <==> RedirectedLowers(a, binders, inp, sources)
  {
    MirroredLookups(inp, sources, a.name);
  }

  /** A method called through its mirror is named by a path, and its item has none a harness can write. */
  predicate Stranded(a: Atom, inp: Inputs, sources: map<string, string>) {
    && MirrorOf(a.name, inp.bindings, inp.resolutions, sources).Some?
    && inp.resolutions[a.name].form.Method?
    && inp.resolutions[a.name].at.path.None?
  }

  ghost predicate Strands(prop: Property, binders: seq<Binder>, inp: Inputs, sources: map<string, string>)
    requires IsInvariant(prop.pattern)
  {
    exists a <- ExprAtoms(ClaimOf(prop.pattern)) :: !ReadsAsVariable(a, binders) && Stranded(a, inp, sources)
  }

  lemma MirroredSortLowers(b: Binder, inp: Inputs, sources: map<string, string>)
    ensures SortLowers(b, Mirrored(inp, sources)) <==> SortLowers(b, inp)
  {
    if b.sort.Some? {
      MirroredLookups(inp, sources, b.sort.value);
    }
  }

  /**
   When a redirected property lowers. Only the calls are asked anything new, and the answer can go either
   way: a mirror needs its module's path, and no longer a receiver, a type's path or a trait's.
   */
  lemma MirroredLowersExactly(prop: Property, binders: seq<Binder>, inp: Inputs, sources: map<string, string>)
    ensures Lowerable(prop, binders, Mirrored(inp, sources)) <==>
              && prop.scope == Globally
              && IsInvariant(prop.pattern)
              && (forall a <- ExprAtoms(ClaimOf(prop.pattern)) ::
                    a.guard.None? && (ReadsAsVariable(a, binders) || RedirectedLowers(a, binders, inp, sources)))
              && (forall b <- binders :: SortLowers(b, inp))
              && (forall a <- ExprAtoms(ClaimOf(prop.pattern)) :: ReadsAsVariable(a, binders) ==>
                    IsBoolSorted(binders[FindBinder(binders, a.name).value], inp))
  {
    forall a: Atom
      ensures CallLowers(a, binders, Mirrored(inp, sources)) <==> RedirectedLowers(a, binders, inp, sources)
    {
      MirroredCallLowers(a, binders, inp, sources);
    }
    forall b ensures SortLowers(b, Mirrored(inp, sources)) <==> SortLowers(b, inp) {
      MirroredSortLowers(b, inp, sources);
    }
  }

  /** Of a property that lowers, redirection strands a call or leaves it lowering. */
  lemma LoweringSurvivesExactly(prop: Property, binders: seq<Binder>, inp: Inputs, sources: map<string, string>)
    requires Lowerable(prop, binders, inp)
    ensures Lowerable(prop, binders, Mirrored(inp, sources)) <==> !Strands(prop, binders, inp, sources)
  {
    MirroredLowersExactly(prop, binders, inp, sources);
    forall a | a in ExprAtoms(ClaimOf(prop.pattern)) && !ReadsAsVariable(a, binders)
      ensures RedirectedLowers(a, binders, inp, sources) <==> !Stranded(a, inp, sources)
    {
      assert AtomLowers(a, binders, inp);
    }
  }

  /**
   A requirement that has a harness over the program functions has one over the mirrors exactly when no
   call it makes is of a mirrored method whose item has no path.
   */
  lemma MirroredHarnessExistsExactly(req: Requirement, inp: Inputs, sources: map<string, string>, alnum: CharClass)
    requires Claims(req, CreusotInputs(inp), alnum).Ok?
    ensures AllInvariant(req)
    ensures Claims(req, CreusotInputs(Mirrored(inp, sources)), alnum).Ok? <==>
            forall p <- req.require :: !Strands(p, Binders(req, p, alnum), inp, sources)
  {
    HarnessesExistTogether(req, "", inp, alnum);
    HarnessesExistTogether(req, "", Mirrored(inp, sources), alnum);
    forall p | p in req.require
      ensures IsInvariant(p.pattern)
      ensures Lowerable(p, Binders(req, p, alnum), Mirrored(inp, sources)) <==>
              !Strands(p, Binders(req, p, alnum), inp, sources)
    {
      LoweringSurvivesExactly(p, Binders(req, p, alnum), inp, sources);
    }
  }

  // ----- The harness over the mirrors asserts the requirement over the program -----

  /** No sort the property ranges over goes by the name of a predicate. */
  predicate SortsApart(binders: seq<Binder>, inp: Inputs) {
    forall b <- binders :: b.sort.Some? ==> b.sort.value !in inp.resolutions
  }

  /** Every link the property leans on holds for the arguments some assignment supplies. */
  ghost predicate LinksHold<V(!new)>(
    s: Subject<V>, req: Requirement, prop: Property, inp: Inputs, sources: map<string, string>, alnum: CharClass)
  {
    IsInvariant(prop.pattern) ==>
      forall env: Env<V> | Assignment(s, Binders(req, prop, alnum), inp, env) ::
        ClaimLinked(s, ClaimOf(prop.pattern), Binders(req, prop, alnum), inp, sources, env)
  }

  /** What the mirror channel is trusted with over a whole requirement. */
  ghost predicate ChannelTrusted<V(!new)>(
    s: Subject<V>, req: Requirement, inp: Inputs, sources: map<string, string>, alnum: CharClass)
  {
    forall p <- req.require ::
      SortsApart(Binders(req, p, alnum), inp) && LinksHold(s, req, p, inp, sources, alnum)
  }

  lemma MirroredAssignment<V>(
    s: Subject<V>, binders: seq<Binder>, inp: Inputs, sources: map<string, string>, env: Env<V>)
    requires SortsApart(binders, inp)
    ensures Assignment(s, binders, Mirrored(inp, sources), env) <==> Assignment(s, binders, inp, env)
  {
    forall b | b in binders
      ensures BinderFits(s, b, Mirrored(inp, sources), env) == BinderFits(s, b, inp, env)
    {
      MirroredSort(b, inp, sources);
    }
  }

  lemma MirroredSort(b: Binder, inp: Inputs, sources: map<string, string>)
    requires b.sort.Some? ==> b.sort.value !in inp.resolutions
    ensures SortRef(b, Mirrored(inp, sources)) == SortRef(b, inp)
  {
    if b.sort.Some? {
      MirroredLookups(inp, sources, b.sort.value);
    }
  }

  /** The closure over the mirrors is read as it is trusted, and says what the closure over the program says. */
  lemma MirroredClosure<V(!new)>(
    s: Subject<V>, req: Requirement, prop: Property, inp: Inputs, sources: map<string, string>, alnum: CharClass)
    requires LowerProperty(req, prop, inp, alnum).Ok?
    requires LowerProperty(req, prop, Mirrored(inp, sources), alnum).Ok?
    requires SortsApart(Binders(req, prop, alnum), inp)
    requires ClosureRead(s, req, prop, inp, alnum) && LinksHold(s, req, prop, inp, sources, alnum)
    ensures IsInvariant(prop.pattern) && ClosureRead(s, req, prop, Mirrored(inp, sources), alnum)
    ensures ClosureHolds(s, req, prop, Mirrored(inp, sources), alnum) <==> ClosureHolds(s, req, prop, inp, alnum)
  {
    var binders := Binders(req, prop, alnum);
    LowersExactlyWhen(req, prop, inp, alnum);
    forall env: Env<V>
      ensures Assignment(s, binders, Mirrored(inp, sources), env) <==> Assignment(s, binders, inp, env)
    {
      MirroredAssignment(s, binders, inp, sources, env);
    }
    forall env: Env<V> | Assignment(s, binders, inp, env)
      ensures ClaimRead(s, ClaimOf(prop.pattern), binders, Mirrored(inp, sources), env)
      ensures ClaimTruth(s, BinderWins, req, prop.pattern, binders, Mirrored(inp, sources), env) ==
              ClaimTruth(s, BinderWins, req, prop.pattern, binders, inp, env)
    {
      assert ClaimLinked(s, ClaimOf(prop.pattern), binders, inp, sources, env);
      MirroredClaimRead(s, ClaimOf(prop.pattern), binders, inp, sources, env);
      MirrorsPreserveMeaning(s, req, prop, inp, sources, alnum, env);
    }
  }

  /**
   The Creusot harness built over the staged mirrors holds exactly when the requirement holds of the
   program functions, as long as both lower and every link holds for the values the sorts supply.
   */
  lemma MirroredHarnessAssertsRequirement<V(!new)>(
    s: Subject<V>, req: Requirement, inp: Inputs, sources: map<string, string>, alnum: CharClass)
    requires Claims(req, CreusotInputs(inp), alnum).Ok?
    requires Claims(req, CreusotInputs(Mirrored(inp, sources)), alnum).Ok?
    requires SignaturesRead(s, req, inp, alnum) && ChannelTrusted(s, req, inp, sources, alnum)
    ensures AllInvariant(req)
    ensures CreusotSays(s, req, Mirrored(inp, sources), alnum) <==> RequirementHolds(s, req, inp, alnum)
  {
    var mirrored := Mirrored(inp, sources);
    LowerAllSucceeds(req, req.require, CreusotInputs(inp), alnum);
    LowerAllSucceeds(req, req.require, CreusotInputs(mirrored), alnum);
    forall p | p in req.require
      ensures IsInvariant(p.pattern) && ClosureRead(s, req, p, mirrored, alnum)
      ensures ClosureHolds(s, req, p, mirrored, alnum) <==> ClosureHolds(s, req, p, inp, alnum)
    {
      LowersAnyPrefix(req, p, inp, "crate", alnum);
      LowersAnyPrefix(req, p, mirrored, "crate", alnum);
      MirroredClosure(s, req, p, inp, sources, alnum);
    }
    CreusotAssertsRequirement(s, req, mirrored, alnum);
  }
}
