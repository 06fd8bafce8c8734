/** When a property lowers, and that what it emits is the printed form of one expression tree. */
module LoweringConditions {
  import opened Basics
  import opened Text
  import opened Prl
  import opened Adapter
  import opened Lowering
  import opened HarnessText

  // ----- The conditions -----

  predicate FormReachable(form: PredicateForm, at: CodeMatch, arity: nat) {
    match form
    case Function => at.path.Some?
    case Method(_, None) => arity > 0
    case Method(_, Some(q)) => arity > 0 && q.typePath.Some? && q.traitPath.Some?
    case VariantTest(_, _, _, enumPath) => at.path.Some? && enumPath.Some?
  }

  predicate ReadsAsVariable(a: Atom, binders: seq<Binder>) {
    a.args == [] && Binds(binders, a.name)
  }

  predicate CallLowers(a: Atom, binders: seq<Binder>, inp: Inputs) {
    && FindBinding(inp.bindings, a.name).Some?
    && a.name in inp.resolutions
    && var res := inp.resolutions[a.name];
    && res.Resolved?
    && |res.params| == |a.args|
    && (forall arg <- a.args :: Binds(binders, Trim(arg)))
    && FormReachable(res.form, res.at, |a.args|)
  }

  predicate AtomLowers(a: Atom, binders: seq<Binder>, inp: Inputs) {
    a.guard.None? && (ReadsAsVariable(a, binders) || CallLowers(a, binders, inp))
  }

  predicate TypeReachable(t: TypeResolution) {
    match t
    case Primitive(_) => true
    case Declared(at) => at.path.Some?
    case Applied(at, args) => at.path.Some? && forall arg <- args :: arg.1.DeclaredArg? ==> arg.1.at.path.Some?
    case NoType => false
  }

  predicate SortLowers(b: Binder, inp: Inputs) {
    && b.sort.Some?
    && FindBinding(inp.bindings, b.sort.value).Some?
    && b.sort.value in inp.sorts
    && TypeReachable(inp.sorts[b.sort.value])
  }

  predicate IsBoolSorted(b: Binder, inp: Inputs) {
    b.sort.Some? && b.sort.value in inp.sorts && inp.sorts[b.sort.value] == Primitive("bool")
  }

  function ClaimOf(p: Pattern): Expr
    requires IsInvariant(p)
  {
    p.claim
  }

  /** Everything a property has to satisfy, said without mentioning how it is lowered. */
  ghost predicate Lowerable(prop: Property, binders: seq<Binder>, inp: Inputs) {
    && prop.scope == Globally
    && IsInvariant(prop.pattern)
    && (forall a <- ExprAtoms(ClaimOf(prop.pattern)) :: AtomLowers(a, binders, inp))
    && (forall b <- binders :: SortLowers(b, inp))
    && (forall a <- ExprAtoms(ClaimOf(prop.pattern)) :: ReadsAsVariable(a, binders) ==>
          IsBoolSorted(binders[FindBinder(binders, a.name).value], inp))
  }

  // ----- Success is exactly the conditions -----

  lemma CallTextSucceeds(form: PredicateForm, observable: string, args: seq<seq<Token>>, prefix: string, at: CodeMatch)
    ensures LowerCall(form, observable, args, prefix, at).Ok? <==> FormReachable(form, at, |args|)
  {
    match form {
      case Function =>
      case Method(name, viaTrait) =>
        if args != [] && viaTrait.Some? {
          var q := viaTrait.value;
          assert ItemPath(prefix, q.typePath, q.typeName).Ok? <==> q.typePath.Some?;
        }
      case VariantTest(name, enumName, variant, enumPath) =>
    }
  }

  lemma AtomTextSucceeds(a: Atom, binders: seq<Binder>, inp: Inputs)
    ensures AtomText(a, binders, inp).Ok? <==> AtomLowers(a, binders, inp)
  {
    if a.name in inp.resolutions && inp.resolutions[a.name].Resolved? && FindBinding(inp.bindings, a.name).Some? {
      var Resolved(at, params, form) := inp.resolutions[a.name];
      if |params| == |a.args| {
        LowerArgsSucceeds(a.name, a.args, params, binders);
        CallTextSucceeds(form, inp.bindings[FindBinding(inp.bindings, a.name).value].observable,
                         ArgTexts(a.args, params), inp.prefix, at);
      }
    }
  }

  lemma {:induction false} ExprTextSucceeds(e: Expr, binders: seq<Binder>, inp: Inputs)
    ensures ExprText(e, binders, inp).Ok? <==> forall a <- ExprAtoms(e) :: AtomLowers(a, binders, inp)
  {
    match e {
      case Apply(a) => AtomTextSucceeds(a, binders, inp);
      case Not(inner) => ExprTextSucceeds(inner, binders, inp);
      case And(l, r) =>
        ExprTextSucceeds(l, binders, inp);
        ExprTextSucceeds(r, binders, inp);
      case Or(l, r) =>
        ExprTextSucceeds(l, binders, inp);
        ExprTextSucceeds(r, binders, inp);
    }
  }

  lemma {:induction false} ArgTypesSucceed(prefix: string, args: seq<(string, ArgResolution)>)
    ensures ArgTypes(prefix, args).Ok? <==> forall arg <- args :: arg.1.DeclaredArg? ==> arg.1.at.path.Some?
  {
    if args != [] {
      ArgTypesSucceed(prefix, args[1..]);
      assert forall arg :: arg in args <==> arg == args[0] || arg in args[1..];
    }
  }

  lemma SortTypeSucceeds(b: Binder, inp: Inputs)
    ensures SortType(b, inp).Ok? <==> SortLowers(b, inp)
  {
    if b.sort.Some? && b.sort.value in inp.sorts && inp.sorts[b.sort.value].Applied? {
      ArgTypesSucceed(inp.prefix, inp.sorts[b.sort.value].args);
    }
  }

  lemma {:induction false} QuantifySucceeds(binders: seq<Binder>, inp: Inputs)
    ensures var r := Quantify(binders, inp);
            && (r.Ok? <==> forall b <- binders :: SortLowers(b, inp))
            && (r.Ok? ==> |r.value| == |binders| && forall i :: 0 <= i < |binders| ==>
                  r.value[i].name == binders[i].name && SortType(binders[i], inp) == Ok(r.value[i].ty))
  {
    if binders != [] {
      SortTypeSucceeds(binders[0], inp);
      QuantifySucceeds(binders[1..], inp);
      assert forall b :: b in binders <==> b == binders[0] || b in binders[1..];
    }
  }

  lemma ConditionProblemMeans(a: Atom, binders: seq<Binder>, inp: Inputs)
    requires forall b <- binders :: SortLowers(b, inp)
    ensures ConditionProblem(a, binders, inp.sorts).None? <==>
            (ReadsAsVariable(a, binders) ==> IsBoolSorted(binders[FindBinder(binders, a.name).value], inp))
  {
    if ReadsAsVariable(a, binders) {
      assert SortLowers(binders[FindBinder(binders, a.name).value], inp);
    }
  }

  /**
   `lower_property` succeeds exactly when all its conditions hold together. The condition check runs
   first and passes over an unresolved sort; the sorts are then all demanded, so nothing slips through.
   */
  lemma LowersExactlyWhen(req: Requirement, prop: Property, inp: Inputs, alnum: CharClass)
    ensures LowerProperty(req, prop, inp, alnum).Ok? <==> Lowerable(prop, Binders(req, prop, alnum), inp)
  {
    var binders := Binders(req, prop, alnum);
    QuantifySucceeds(binders, inp);
    if IsInvariant(prop.pattern) && prop.scope == Globally {
      ExprTextSucceeds(ClaimOf(prop.pattern), binders, inp);
      assert PropertyAtoms(prop) == ExprAtoms(ClaimOf(prop.pattern));
      if forall b <- binders :: SortLowers(b, inp) {
        forall a | a in PropertyAtoms(prop) {
          ConditionProblemMeans(a, binders, inp);
        }
      }
    }
  }

  // ----- The tree behind the text -----

  function ArgsOf(args: seq<string>, params: seq<ParamMode>): (r: seq<Arg>)
    requires |args| == |params|
    ensures |r| == |args|
    ensures forall i :: 0 <= i < |args| ==> r[i] == Arg(params[i] == ByRef, Trim(args[i]))
  {
    if args == [] then [] else [Arg(params[0] == ByRef, Trim(args[0]))] + ArgsOf(args[1..], params[1..])
  }

  function PathOf(prefix: string, path: Option<seq<string>>, written: string): (r: seq<string>)
    requires path.Some?
    ensures r != []
  {
    [prefix] + path.value + [ItemName(written)]
  }

  function CallTree(form: PredicateForm, observable: string, args: seq<Arg>, prefix: string, at: CodeMatch): Tree
    requires FormReachable(form, at, |args|)
  {
    match form
    case Function => PathCall(PathOf(prefix, at.path, observable), args)
    case Method(name, None) => MethodCall(args[0].name, name, args[1..])
    case Method(name, Some(q)) =>
      TraitCall(PathOf(prefix, q.typePath, q.typeName), PathOf(prefix, q.traitPath, q.traitName), name, args)
    case VariantTest(name, enumName, variant, enumPath) =>
      VariantMatch(PathOf(prefix, at.path, name), args, PathOf(prefix, enumPath, enumName), variant)
  }

  function AtomTree(a: Atom, binders: seq<Binder>, inp: Inputs): Tree
    requires AtomLowers(a, binders, inp)
  {
    if ReadsAsVariable(a, binders) then Variable(a.name)
    else
      var res := inp.resolutions[a.name];
      CallTree(res.form, inp.bindings[FindBinding(inp.bindings, a.name).value].observable,
               ArgsOf(a.args, res.params), inp.prefix, res.at)
  }

  ghost predicate ExprLowers(e: Expr, binders: seq<Binder>, inp: Inputs) {
    forall a <- ExprAtoms(e) :: AtomLowers(a, binders, inp)
  }

  ghost function ExprTree(e: Expr, binders: seq<Binder>, inp: Inputs): Tree
    requires ExprLowers(e, binders, inp)
  {
    match e
    case Apply(a) => AtomTree(a, binders, inp)
    case Not(inner) => Negation(ExprTree(inner, binders, inp))
    case And(l, r) => Conjunction(ExprTree(l, binders, inp), ExprTree(r, binders, inp))
    case Or(l, r) => Disjunction(ExprTree(l, binders, inp), ExprTree(r, binders, inp))
  }

  ghost function ClaimTree(p: Pattern, binders: seq<Binder>, inp: Inputs): Tree
    requires IsInvariant(p) && ExprLowers(ClaimOf(p), binders, inp)
  {
    var t := ExprTree(ClaimOf(p), binders, inp);
    if p.Never? then Negation(t) else t
  }

  lemma {:induction false} JoinedArgsArePrinted(args: seq<string>, params: seq<ParamMode>)
    requires |args| == |params|
    ensures JoinArgs(ArgTexts(args, params)) == PrintArgs(ArgsOf(args, params))
  {
    if |args| > 1 {
      JoinedArgsArePrinted(args[1..], params[1..]);
      assert ArgTexts(args, params)[1..] == ArgTexts(args[1..], params[1..]);
      assert ArgsOf(args, params)[1..] == ArgsOf(args[1..], params[1..]);
    }
  }

  lemma CallIsPrinted(
    form: PredicateForm, observable: string, args: seq<string>, params: seq<ParamMode>, prefix: string, at: CodeMatch)
    requires |args| == |params| && FormReachable(form, at, |args|)
    ensures var t := CallTree(form, observable, ArgsOf(args, params), prefix, at);
            WellFormed(t) && LowerCall(form, observable, ArgTexts(args, params), prefix, at) == Ok(Print(t))
  {
    JoinedArgsArePrinted(args, params);
    match form {
      case Method(name, None) =>
        JoinedArgsArePrinted(args[1..], params[1..]);
        assert ArgTexts(args, params)[1..] == ArgTexts(args[1..], params[1..]);
        assert ArgsOf(args, params)[1..] == ArgsOf(args[1..], params[1..]);
        assert StripAmp(ArgTexts(args, params)[0]) == [Id(Trim(args[0]))];
      case _ =>
    }
  }

  lemma CallTextIs(a: Atom, binders: seq<Binder>, inp: Inputs)
    requires a.guard.None? && !ReadsAsVariable(a, binders) && CallLowers(a, binders, inp)
    ensures var res := inp.resolutions[a.name];
            AtomText(a, binders, inp) ==
            LowerCall(res.form, inp.bindings[FindBinding(inp.bindings, a.name).value].observable,
                      ArgTexts(a.args, res.params), inp.prefix, res.at)
  {
    LowerArgsSucceeds(a.name, a.args, inp.resolutions[a.name].params, binders);
  }

  lemma AtomIsPrinted(a: Atom, binders: seq<Binder>, inp: Inputs)
    requires AtomLowers(a, binders, inp)
    ensures var t := AtomTree(a, binders, inp); WellFormed(t) && AtomText(a, binders, inp) == Ok(Print(t))
  {
    if !ReadsAsVariable(a, binders) {
      var Resolved(at, params, form) := inp.resolutions[a.name];
      CallTextIs(a, binders, inp);
      CallIsPrinted(form, inp.bindings[FindBinding(inp.bindings, a.name).value].observable,
                    a.args, params, inp.prefix, at);
    }
  }

  lemma {:induction false} ExprIsPrinted(e: Expr, binders: seq<Binder>, inp: Inputs)
    requires ExprLowers(e, binders, inp)
    ensures var t := ExprTree(e, binders, inp); WellFormed(t) && ExprText(e, binders, inp) == Ok(Print(t))
  {
    match e {
      case Apply(a) => AtomIsPrinted(a, binders, inp);
      case Not(inner) => ExprIsPrinted(inner, binders, inp);
      case And(l, r) =>
        ExprIsPrinted(l, binders, inp);
        ExprIsPrinted(r, binders, inp);
      case Or(l, r) =>
        ExprIsPrinted(l, binders, inp);
        ExprIsPrinted(r, binders, inp);
    }
  }

  /** A lowered claim reads back as the tree its pattern calls for. */
  lemma ClaimReadsBack(req: Requirement, prop: Property, inp: Inputs, alnum: CharClass)
    requires LowerProperty(req, prop, inp, alnum).Ok?
    ensures Lowerable(prop, Binders(req, prop, alnum), inp)
    ensures ReadAll(LowerProperty(req, prop, inp, alnum).value.claim) ==
            Some(ClaimTree(prop.pattern, Binders(req, prop, alnum), inp))
  {
    var binders := Binders(req, prop, alnum);
    LowersExactlyWhen(req, prop, inp, alnum);
    ExprIsPrinted(ClaimOf(prop.pattern), binders, inp);
    ReadPrinted(ClaimTree(prop.pattern, binders, inp));
  }

  // ----- Closed, and boolean where it must be -----

  function TreeNames(t: Tree): set<string> {
    match t
    case Variable(v) => {v}
    case Negation(e) => TreeNames(e)
    case Conjunction(l, r) => TreeNames(l) + TreeNames(r)
    case Disjunction(l, r) => TreeNames(l) + TreeNames(r)
    case PathCall(_, args) => set a <- args :: a.name
    case MethodCall(recv, _, args) => {recv} + set a <- args :: a.name
    case TraitCall(_, _, _, args) => set a <- args :: a.name
    case VariantMatch(_, args, _, _) => set a <- args :: a.name
  }

  function ConditionNames(t: Tree): set<string> {
    match t
    case Variable(v) => {v}
    case Negation(e) => ConditionNames(e)
    case Conjunction(l, r) => ConditionNames(l) + ConditionNames(r)
    case Disjunction(l, r) => ConditionNames(l) + ConditionNames(r)
    case _ => {}
  }

  ghost predicate StandsAsCondition(e: Expr, binders: seq<Binder>, v: string) {
    exists a :: a in ExprAtoms(e) && a.name == v && ReadsAsVariable(a, binders)
  }

  lemma CallIsClosed(form: PredicateForm, observable: string, args: seq<Arg>, prefix: string, at: CodeMatch)
    requires FormReachable(form, at, |args|)
    ensures var t := CallTree(form, observable, args, prefix, at);
            ConditionNames(t) == {} && TreeNames(t) == set a <- args :: a.name
  {
    match form {
      case Method(name, None) =>
        assert forall x :: x in args <==> x == args[0] || x in args[1..];
      case _ =>
    }
  }

  lemma AtomIsClosed(a: Atom, binders: seq<Binder>, inp: Inputs)
    requires AtomLowers(a, binders, inp)
    ensures forall v <- TreeNames(AtomTree(a, binders, inp)) :: Binds(binders, v)
    ensures forall v <- ConditionNames(AtomTree(a, binders, inp)) :: v == a.name && ReadsAsVariable(a, binders)
  {
    if !ReadsAsVariable(a, binders) {
      var res := inp.resolutions[a.name];
      var args := ArgsOf(a.args, res.params);
      var i := FindBinding(inp.bindings, a.name).value;
      CallIsClosed(res.form, inp.bindings[i].observable, args, inp.prefix, res.at);
      forall x | x in args ensures Binds(binders, x.name) {
        var i :| 0 <= i < |args| && args[i] == x;
        assert a.args[i] in a.args;
      }
    }
  }

  lemma {:induction false} TreeIsClosed(e: Expr, binders: seq<Binder>, inp: Inputs)
    requires ExprLowers(e, binders, inp)
    ensures forall v <- TreeNames(ExprTree(e, binders, inp)) :: Binds(binders, v)
    ensures forall v <- ConditionNames(ExprTree(e, binders, inp)) :: StandsAsCondition(e, binders, v)
  {
    match e {
      case Apply(a) =>
        assert a in ExprAtoms(e);
        AtomIsClosed(a, binders, inp);
      case Not(inner) => TreeIsClosed(inner, binders, inp);
      case And(l, r) =>
        TreeIsClosed(l, binders, inp);
        TreeIsClosed(r, binders, inp);
        MoreAtomsMoreConditions(l, r, e, binders);
      case Or(l, r) =>
        TreeIsClosed(l, binders, inp);
        TreeIsClosed(r, binders, inp);
        MoreAtomsMoreConditions(l, r, e, binders);
    }
  }

  lemma MoreAtomsMoreConditions(l: Expr, r: Expr, e: Expr, binders: seq<Binder>)
    requires ExprAtoms(e) == ExprAtoms(l) + ExprAtoms(r)
    ensures forall v :: StandsAsCondition(l, binders, v) || StandsAsCondition(r, binders, v)
                        ==> StandsAsCondition(e, binders, v)
  {
    forall v | StandsAsCondition(l, binders, v) ensures StandsAsCondition(e, binders, v) {
      var a :| a in ExprAtoms(l) && a.name == v && ReadsAsVariable(a, binders);
      assert a in ExprAtoms(e);
    }
    forall v | StandsAsCondition(r, binders, v) ensures StandsAsCondition(e, binders, v) {
      var a :| a in ExprAtoms(r) && a.name == v && ReadsAsVariable(a, binders);
      assert a in ExprAtoms(e);
    }
  }

  ghost predicate QuantifiersOf(quantified: seq<Quantified>, binders: seq<Binder>, inp: Inputs) {
    && |quantified| == |binders|
    && forall i :: 0 <= i < |binders| ==>
         quantified[i].name == binders[i].name && SortType(binders[i], inp) == Ok(quantified[i].ty)
  }

  lemma BoundIsQuantified(quantified: seq<Quantified>, binders: seq<Binder>, inp: Inputs, v: string)
    requires QuantifiersOf(quantified, binders, inp) && Binds(binders, v)
    ensures exists q :: q in quantified && q.name == v
  {
    assert quantified[FindBinder(binders, v).value] in quantified;
  }

  lemma BoolIsQuantifiedBare(quantified: seq<Quantified>, binders: seq<Binder>, inp: Inputs, v: string)
    requires QuantifiersOf(quantified, binders, inp) && Binds(binders, v)
    requires IsBoolSorted(binders[FindBinder(binders, v).value], inp)
    requires SortLowers(binders[FindBinder(binders, v).value], inp)
    ensures Quantified(v, Bare("bool")) in quantified
  {
    assert quantified[FindBinder(binders, v).value] == Quantified(v, Bare("bool"));
  }

  /**
   Every result is closed: each name the emitted text mentions is quantified, exactly one quantifier
   per variable, and a variable standing as a condition is quantified over the bare `bool`.
   */
  lemma LoweredClaimIsClosed(req: Requirement, prop: Property, inp: Inputs, alnum: CharClass)
    requires LowerProperty(req, prop, inp, alnum).Ok?
    ensures var out := LowerProperty(req, prop, inp, alnum).value;
            && ReadAll(out.claim).Some?
            && (forall v <- TreeNames(ReadAll(out.claim).value) :: exists q :: q in out.quantified && q.name == v)
            && (forall i, j :: 0 <= i < j < |out.quantified| ==> out.quantified[i].name != out.quantified[j].name)
            && (forall v <- ConditionNames(ReadAll(out.claim).value) :: Quantified(v, Bare("bool")) in out.quantified)
  {
    var binders := Binders(req, prop, alnum);
    var out := LowerProperty(req, prop, inp, alnum).value;
    ClaimReadsBack(req, prop, inp, alnum);
    BindersContract(req, prop, alnum);
    QuantifySucceeds(binders, inp);
    var claim := ClaimOf(prop.pattern);
    TreeIsClosed(claim, binders, inp);
    var t := ExprTree(claim, binders, inp);
    assert TreeNames(ReadAll(out.claim).value) == TreeNames(t);
    assert ConditionNames(ReadAll(out.claim).value) == ConditionNames(t);
    forall v | v in TreeNames(ReadAll(out.claim).value)
      ensures exists q :: q in out.quantified && q.name == v
    {
      BoundIsQuantified(out.quantified, binders, inp, v);
    }
    forall v | v in ConditionNames(ReadAll(out.claim).value)
      ensures Quantified(v, Bare("bool")) in out.quantified
    {
      assert StandsAsCondition(claim, binders, v);
      var a :| a in ExprAtoms(claim) && a.name == v && ReadsAsVariable(a, binders);
      BoolIsQuantifiedBare(out.quantified, binders, inp, v);
    }
  }
}
