/**
 What a PRL claim says about a subject program, what emitted text says about it, and that the two agree.

 A subject is any interpretation of its items over any type of values. A function knows how each of
 its parameters is written, so a call that passes `&u` where `u` is wanted means nothing: it would
 not compile.
 */
module Meaning {
  import opened Basics
  import opened Text
  import opened Prl
  import opened Adapter
  import opened Lowering
  import opened HarnessText
  import opened LoweringConditions

  datatype Fn<!V> = Fn(modes: seq<ParamMode>, apply: seq<V> -> V)

  /** A type of the subject, named without the prefix a harness reaches it through. */
  datatype TypeRef =
    | PrimitiveRef(name: string)
    | DeclaredRef(path: seq<string>)
    | AppliedRef(head: seq<string>, args: seq<TypeRef>)

  /** Items are named by their module path followed by their own name. */
  datatype Subject<!V> = Subject(
    free: seq<string> -> Option<Fn<V>>,
    inherent: (V, string) -> Option<Fn<V>>,
    traitFn: (seq<string>, seq<string>, string) -> Option<Fn<V>>,
    isVariant: (seq<string>, string, V) -> bool,
    asBool: V -> Option<bool>,
    inhabits: (TypeRef, V) -> bool)

  type Env<V> = map<string, V>

  // ----- What emitted text says -----

  function InCrate(prefix: string, path: seq<string>): Option<seq<string>> {
    if |path| >= 2 && path[0] == prefix then Some(path[1..]) else None
  }

  ghost function Modes(args: seq<Arg>): (r: seq<ParamMode>)
    ensures |r| == |args|
  {
    seq(|args|, i requires 0 <= i < |args| => if args[i].byRef then ByRef else ByValue)
  }

  ghost predicate AllIn<V>(names: seq<string>, env: Env<V>) {
    forall n <- names :: n in env
  }

  ghost function Values<V>(names: seq<string>, env: Env<V>): (vs: seq<V>)
    requires AllIn(names, env)
    ensures |vs| == |names|
  {
    seq(|names|, i requires 0 <= i < |names| => env[names[i]])
  }

  ghost function Names(args: seq<Arg>): (r: seq<string>)
    ensures |r| == |args|
  {
    seq(|args|, i requires 0 <= i < |args| => args[i].name)
  }

  /** An ordinary call: the callee exists and every argument is passed the way it is declared. */
  ghost function CallValue<V>(fn: Option<Fn<V>>, args: seq<Arg>, env: Env<V>): Option<V> {
    if fn.Some? && fn.value.modes == Modes(args) && AllIn(Names(args), env)
    then Some(fn.value.apply(Values(Names(args), env)))
    else None
  }

  ghost function Truth<V>(s: Subject<V>, v: Option<V>): Option<bool> {
    if v.Some? then s.asBool(v.value) else None
  }

  ghost function Both(op: (bool, bool) -> bool, a: Option<bool>, b: Option<bool>): Option<bool> {
    if a.Some? && b.Some? then Some(op(a.value, b.value)) else None
  }

  ghost function Negated(a: Option<bool>): Option<bool> {
    if a.Some? then Some(!a.value) else None
  }

  ghost function AndOf(a: Option<bool>, b: Option<bool>): Option<bool> {
    Both((x, y) => x && y, a, b)
  }

  ghost function OrOf(a: Option<bool>, b: Option<bool>): Option<bool> {
    Both((x, y) => x || y, a, b)
  }

  ghost function EvalCall<V>(s: Subject<V>, prefix: string, path: seq<string>, args: seq<Arg>, env: Env<V>): Option<V> {
    match InCrate(prefix, path)
    case None => None
    case Some(item) => CallValue(s.free(item), args, env)
  }

  ghost function Eval<V>(s: Subject<V>, prefix: string, t: Tree, env: Env<V>): Option<bool> {
    match t
    case Variable(v) => if v in env then s.asBool(env[v]) else None
    case Negation(e) => Negated(Eval(s, prefix, e, env))
    case Conjunction(l, r) => AndOf(Eval(s, prefix, l, env), Eval(s, prefix, r, env))
    case Disjunction(l, r) => OrOf(Eval(s, prefix, l, env), Eval(s, prefix, r, env))
    case PathCall(path, args) => Truth(s, EvalCall(s, prefix, path, args, env))
    case MethodCall(recv, name, args) =>
      // The receiver takes whatever reference the method wants; the other arguments do not.
      if recv !in env then None
      else
        var fn := s.inherent(env[recv], name);
        if fn.Some? && |fn.value.modes| == |args| + 1 && fn.value.modes[1..] == Modes(args) && AllIn(Names(args), env)
        then s.asBool(fn.value.apply([env[recv]] + Values(Names(args), env)))
        else None
    case TraitCall(ty, tr, name, args) =>
      (match (InCrate(prefix, ty), InCrate(prefix, tr))
       case (Some(tyItem), Some(trItem)) => Truth(s, CallValue(s.traitFn(tyItem, trItem, name), args, env))
       case _ => None)
    case VariantMatch(fn, args, en, variant) =>
      match InCrate(prefix, en)
      case None => None
      case Some(enumItem) =>
        var v := EvalCall(s, prefix, fn, args, env);
        if v.Some? then Some(s.isVariant(enumItem, variant, v.value)) else None
  }

  // ----- What a PRL claim says -----

  /** A bound function applied to values, whichever way its parameters happen to be written. */
  ghost function Applied<V>(fn: Option<Fn<V>>, vs: seq<V>): Option<V> {
    if fn.Some? && |fn.value.modes| == |vs| then Some(fn.value.apply(vs)) else None
  }

  ghost function PredicateTruth<V>(s: Subject<V>, observable: string, res: Resolution, vs: seq<V>): Option<bool> {
    if res.Unresolved? || !FormReachable(res.form, res.at, |vs|) then None
    else
      match res.form
      case Function => Truth(s, Applied(s.free(res.at.path.value + [ItemName(observable)]), vs))
      case Method(name, None) => Truth(s, Applied(s.inherent(vs[0], name), vs))
      case Method(name, Some(q)) =>
        Truth(s, Applied(s.traitFn(q.typePath.value + [ItemName(q.typeName)],
                                   q.traitPath.value + [ItemName(q.traitName)], name), vs))
      case VariantTest(name, enumName, variant, enumPath) =>
        var v := Applied(s.free(res.at.path.value + [ItemName(name)]), vs);
        if v.Some? then Some(s.isVariant(enumPath.value + [ItemName(enumName)], variant, v.value)) else None
  }

  /**
   How a bare name both declared as a predicate and bound as a variable is read. Lowering lets the
   binder win (lowering.rs:405-413); the gate says the declaration does (prl/check.rs:48-54).
   */
  datatype Reading = BinderWins | DeclarationWins

  ghost predicate IsVariableIn(reading: Reading, vocabulary: seq<Decl>, a: Atom, binders: seq<Binder>) {
    ReadsAsVariable(a, binders) && (reading == DeclarationWins ==> DeclaredParams(vocabulary, a.name).None?)
  }

  ghost function TrimmedArgs(a: Atom): (r: seq<string>)
    ensures |r| == |a.args|
  {
    seq(|a.args|, i requires 0 <= i < |a.args| => Trim(a.args[i]))
  }

  ghost function AtomTruth<V>(
    s: Subject<V>, reading: Reading, vocabulary: seq<Decl>, a: Atom, binders: seq<Binder>, inp: Inputs, env: Env<V>)
    : Option<bool>
  {
    if IsVariableIn(reading, vocabulary, a, binders) then (if a.name in env then s.asBool(env[a.name]) else None)
    else if FindBinding(inp.bindings, a.name).None? || a.name !in inp.resolutions then None
    else if !AllIn(TrimmedArgs(a), env) then None
    else PredicateTruth(s, inp.bindings[FindBinding(inp.bindings, a.name).value].observable,
                        inp.resolutions[a.name], Values(TrimmedArgs(a), env))
  }

  ghost function ExprTruth<V>(
    s: Subject<V>, reading: Reading, vocabulary: seq<Decl>, e: Expr, binders: seq<Binder>, inp: Inputs, env: Env<V>)
    : Option<bool>
  {
    match e
    case Apply(a) => AtomTruth(s, reading, vocabulary, a, binders, inp, env)
    case Not(inner) => Negated(ExprTruth(s, reading, vocabulary, inner, binders, inp, env))
    case And(l, r) => AndOf(ExprTruth(s, reading, vocabulary, l, binders, inp, env),
                            ExprTruth(s, reading, vocabulary, r, binders, inp, env))
    case Or(l, r) => OrOf(ExprTruth(s, reading, vocabulary, l, binders, inp, env),
                          ExprTruth(s, reading, vocabulary, r, binders, inp, env))
  }

  /** `always P` is `P`, and `never P` is `not P`, in the assignment `env` of values to the binders. */
  ghost function ClaimTruth<V>(
    s: Subject<V>, reading: Reading, req: Requirement, p: Pattern, binders: seq<Binder>, inp: Inputs, env: Env<V>)
    : Option<bool>
    requires IsInvariant(p)
  {
    var truth := ExprTruth(s, reading, req.vocabulary, ClaimOf(p), binders, inp, env);
    if p.Never? then Negated(truth) else truth
  }

  // ----- What the adapter is trusted for -----

  ghost predicate Written<V>(fn: Option<Fn<V>>, params: seq<ParamMode>) {
    fn.Some? ==> fn.value.modes == params
  }

  /**
   The resolution reports how the parameters of the item it found are written. For an inherent method
   that is the method of the receiver the call is made on; other types may share its name.
   */
  ghost predicate SignatureRead<V>(
    s: Subject<V>, observable: string, res: Resolution, names: seq<string>, env: Env<V>)
  {
    res.Resolved? ==>
      match res.form
      case Function => res.at.path.Some? ==> Written(s.free(res.at.path.value + [ItemName(observable)]), res.params)
      case Method(name, None) => names != [] && names[0] in env ==> Written(s.inherent(env[names[0]], name), res.params)
      case Method(name, Some(q)) =>
        q.typePath.Some? && q.traitPath.Some? ==>
          Written(s.traitFn(q.typePath.value + [ItemName(q.typeName)],
                            q.traitPath.value + [ItemName(q.traitName)], name), res.params)
      case VariantTest(name, _, _, _) =>
        res.at.path.Some? ==> Written(s.free(res.at.path.value + [ItemName(name)]), res.params)
  }

  ghost predicate AtomRead<V>(s: Subject<V>, a: Atom, inp: Inputs, env: Env<V>) {
    FindBinding(inp.bindings, a.name).Some? && a.name in inp.resolutions ==>
      SignatureRead(s, inp.bindings[FindBinding(inp.bindings, a.name).value].observable,
                    inp.resolutions[a.name], TrimmedArgs(a), env)
  }

  ghost predicate ClaimRead<V>(s: Subject<V>, e: Expr, binders: seq<Binder>, inp: Inputs, env: Env<V>) {
    forall a <- ExprAtoms(e) :: !ReadsAsVariable(a, binders) ==> AtomRead(s, a, inp, env)
  }

  // ----- Lowering preserves meaning -----

  lemma ArgsOfAre(args: seq<string>, params: seq<ParamMode>, a: Atom)
    requires |args| == |params| && a.args == args
    ensures Names(ArgsOf(args, params)) == TrimmedArgs(a)
    ensures Modes(ArgsOf(args, params)) == params
  {
  }

  lemma PathOfInCrate(prefix: string, path: Option<seq<string>>, written: string)
    requires path.Some?
    ensures InCrate(prefix, PathOf(prefix, path, written)) == Some(path.value + [ItemName(written)])
  {
    assert PathOf(prefix, path, written)[1..] == path.value + [ItemName(written)];
  }

  ghost function TruthOver<V>(s: Subject<V>, observable: string, res: Resolution, names: seq<string>, env: Env<V>)
    : Option<bool>
  {
    if AllIn(names, env) then PredicateTruth(s, observable, res, Values(names, env)) else None
  }

  lemma MethodMeans<V>(
    s: Subject<V>, prefix: string, res: Resolution, args: seq<Arg>, observable: string, env: Env<V>)
    requires res.Resolved? && res.form.Method? && res.form.viaTrait.None? && args != []
    requires Modes(args) == res.params && SignatureRead(s, observable, res, Names(args), env)
    ensures Eval(s, prefix, MethodCall(args[0].name, res.form.name, args[1..]), env) ==
            TruthOver(s, observable, res, Names(args), env)
  {
    var names := Names(args);
    assert Names(args[1..]) == names[1..] && Modes(args[1..]) == res.params[1..];
    assert AllIn(names, env) <==> names[0] in env && AllIn(names[1..], env) by {
      assert forall n :: n in names <==> n == names[0] || n in names[1..];
    }
    if AllIn(names, env) {
      assert [env[names[0]]] + Values(names[1..], env) == Values(names, env);
    }
  }

  lemma TraitCallMeans<V>(
    s: Subject<V>, prefix: string, res: Resolution, args: seq<Arg>, observable: string, env: Env<V>)
    requires res.Resolved? && res.form.Method? && res.form.viaTrait.Some? && FormReachable(res.form, res.at, |args|)
    requires Modes(args) == res.params && SignatureRead(s, observable, res, Names(args), env)
    ensures Eval(s, prefix, CallTree(res.form, observable, args, prefix, res.at), env) ==
            TruthOver(s, observable, res, Names(args), env)
  {
    var q := res.form.viaTrait.value;
    PathOfInCrate(prefix, q.typePath, q.typeName);
    PathOfInCrate(prefix, q.traitPath, q.traitName);
  }

  lemma CallTreeMeans<V>(
    s: Subject<V>, prefix: string, res: Resolution, args: seq<Arg>, observable: string, env: Env<V>)
    requires res.Resolved? && FormReachable(res.form, res.at, |args|)
    requires Modes(args) == res.params && SignatureRead(s, observable, res, Names(args), env)
    ensures Eval(s, prefix, CallTree(res.form, observable, args, prefix, res.at), env) ==
            TruthOver(s, observable, res, Names(args), env)
  {
    match res.form {
      case Function => PathOfInCrate(prefix, res.at.path, observable);
      case Method(name, None) => MethodMeans(s, prefix, res, args, observable, env);
      case Method(name, Some(q)) => TraitCallMeans(s, prefix, res, args, observable, env);
      case VariantTest(name, enumName, variant, enumPath) =>
        PathOfInCrate(prefix, res.at.path, name);
        PathOfInCrate(prefix, enumPath, enumName);
    }
  }

  lemma CallMeans<V>(s: Subject<V>, a: Atom, binders: seq<Binder>, inp: Inputs, env: Env<V>)
    requires CallLowers(a, binders, inp) && AtomRead(s, a, inp, env)
    ensures var i := FindBinding(inp.bindings, a.name).value;
            var res := inp.resolutions[a.name];
            var args := ArgsOf(a.args, res.params);
            Eval(s, inp.prefix, CallTree(res.form, inp.bindings[i].observable, args, inp.prefix, res.at), env)
            == TruthOver(s, inp.bindings[i].observable, res, TrimmedArgs(a), env)
  {
    var i := FindBinding(inp.bindings, a.name).value;
    var res := inp.resolutions[a.name];
    ArgsOfAre(a.args, res.params, a);
    CallTreeMeans(s, inp.prefix, res, ArgsOf(a.args, res.params), inp.bindings[i].observable, env);
  }

  lemma {:induction false} ExprMeans<V>(
    s: Subject<V>, vocabulary: seq<Decl>, e: Expr, binders: seq<Binder>, inp: Inputs, env: Env<V>)
    requires ExprLowers(e, binders, inp) && ClaimRead(s, e, binders, inp, env)
    ensures Eval(s, inp.prefix, ExprTree(e, binders, inp), env) ==
            ExprTruth(s, BinderWins, vocabulary, e, binders, inp, env)
  {
    match e {
      case Apply(a) =>
        assert a in ExprAtoms(e);
        if !ReadsAsVariable(a, binders) {
          CallMeans(s, a, binders, inp, env);
        }
      case Not(inner) => ExprMeans(s, vocabulary, inner, binders, inp, env);
      case And(l, r) =>
        ExprMeans(s, vocabulary, l, binders, inp, env);
        ExprMeans(s, vocabulary, r, binders, inp, env);
      case Or(l, r) =>
        ExprMeans(s, vocabulary, l, binders, inp, env);
        ExprMeans(s, vocabulary, r, binders, inp, env);
    }
  }

  /**
   Lowering preserves meaning: for every property that lowers, in every assignment and every subject
   whose signatures were read correctly for the calls made there, reading the emitted text and
   evaluating it gives exactly the truth value of the claim.
   */
  lemma LoweringPreservesMeaning<V>(
    s: Subject<V>, req: Requirement, prop: Property, inp: Inputs, alnum: CharClass, env: Env<V>)
    requires LowerProperty(req, prop, inp, alnum).Ok?
    requires IsInvariant(prop.pattern) ==>
               ClaimRead(s, ClaimOf(prop.pattern), Binders(req, prop, alnum), inp, env)
    ensures IsInvariant(prop.pattern)
    ensures var text := LowerProperty(req, prop, inp, alnum).value.claim;
            && ReadAll(text).Some?
            && Eval(s, inp.prefix, ReadAll(text).value, env) ==
               ClaimTruth(s, BinderWins, req, prop.pattern, Binders(req, prop, alnum), inp, env)
  {
    ClaimReadsBack(req, prop, inp, alnum);
    ExprMeans(s, req.vocabulary, ClaimOf(prop.pattern), Binders(req, prop, alnum), inp, env);
  }

  // ----- A declared nullary predicate captured by a binder of the same name -----

  ghost predicate Captured(req: Requirement, a: Atom, binders: seq<Binder>) {
    ReadsAsVariable(a, binders) && DeclaredParams(req.vocabulary, a.name).Some?
  }

  lemma {:induction false} ReadingsAgree<V>(
    s: Subject<V>, req: Requirement, e: Expr, binders: seq<Binder>, inp: Inputs, env: Env<V>)
    requires forall a <- ExprAtoms(e) :: !Captured(req, a, binders)
    ensures ExprTruth(s, BinderWins, req.vocabulary, e, binders, inp, env) ==
            ExprTruth(s, DeclarationWins, req.vocabulary, e, binders, inp, env)
  {
    match e {
      case Apply(a) => assert a in ExprAtoms(e);
      case Not(inner) => ReadingsAgree(s, req, inner, binders, inp, env);
      case And(l, r) =>
        ReadingsAgree(s, req, l, binders, inp, env);
        ReadingsAgree(s, req, r, binders, inp, env);
      case Or(l, r) =>
        ReadingsAgree(s, req, l, binders, inp, env);
        ReadingsAgree(s, req, r, binders, inp, env);
    }
  }

  /** The subject whose functions take no parameters and are all false. */
  ghost function AllFalse(): Subject<bool> {
    Subject(
      (path: seq<string>) => Some(Fn([], (vs: seq<bool>) => false)),
      (v: bool, name: string) => None,
      (ty: seq<string>, tr: seq<string>, name: string) => None,
      (en: seq<string>, variant: string, v: bool) => v,
      (v: bool) => Some(v),
      (ty: TypeRef, v: bool) => true)
  }

  /**
   Whether the emitted text of a bare atom means the predicate the vocabulary declares, in every
   subject and assignment, is decided by one check: that no binder has captured the name.
   */
  lemma CaptureIsExact(req: Requirement, a: Atom, binders: seq<Binder>, inp: Inputs)
    requires a.guard.None? && a.args == [] && CallLowers(a, binders, inp)
    requires DeclaredParams(req.vocabulary, a.name).Some?
    ensures Captured(req, a, binders) <==>
            exists s: Subject<bool>, env: Env<bool> ::
              AtomRead(s, a, inp, env)
              && Eval(s, inp.prefix, AtomTree(a, binders, inp), env) !=
                 AtomTruth(s, DeclarationWins, req.vocabulary, a, binders, inp, env)
  {
    if Captured(req, a, binders) {
      var s, env := AllFalse(), map[a.name := true];
      assert Values(TrimmedArgs(a), env) == [];
      assert AtomTruth(s, DeclarationWins, req.vocabulary, a, binders, inp, env) == Some(false);
      assert Eval(s, inp.prefix, AtomTree(a, binders, inp), env) == Some(true);
      assert AtomRead(s, a, inp, env);
    } else {
      forall s: Subject<bool>, env: Env<bool> | AtomRead(s, a, inp, env)
        ensures Eval(s, inp.prefix, AtomTree(a, binders, inp), env) ==
                AtomTruth(s, DeclarationWins, req.vocabulary, a, binders, inp, env)
      {
        CallMeans(s, a, binders, inp, env);
      }
    }
  }
}
