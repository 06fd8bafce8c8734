/**
 The two harnesses built over one lowering (`src/kani.rs`, `src/creusot.rs`) and what each asserts.
 A harness is the list of statements in its body; the surrounding comment header is not modelled.
 */
module Harness {
  import opened Basics
  import opened Text
  import opened Prl
  import opened Adapter
  import opened Lowering
  import opened HarnessText
  import opened LoweringConditions
  import opened Meaning

  /** `{`, `let v: T = kani::any();`, `assert!(e);`, `}`. */
  datatype KaniStmt = Open | Let(q: Quantified) | Assert(condition: seq<Token>) | Close

  datatype KaniHarness = KaniHarness(name: string, crateName: string, body: seq<KaniStmt>)

  /** `proof_assert! { e };` and `proof_assert! { forall<v: T, …> e };`. */
  datatype ProofAssert = Ground(claim: seq<Token>) | Forall(binders: seq<Quantified>, claim: seq<Token>)

  datatype CreusotHarness = CreusotHarness(name: string, body: seq<ProofAssert>)

  // ----- Building them -----

  function Lets(qs: seq<Quantified>): seq<KaniStmt> {
    if qs == [] then [] else [Let(qs[0])] + Lets(qs[1..])
  }

  function KaniAssertion(claim: LoweredClaim): seq<KaniStmt> {
    [Open] + Lets(claim.quantified) + [Assert(claim.claim), Close]
  }

  function CreusotAssertion(claim: LoweredClaim): ProofAssert {
    if claim.quantified == [] then Ground(claim.claim) else Forall(claim.quantified, claim.claim)
  }

  /** Every property lowered in order, or the first refusal. */
  function LowerAll(req: Requirement, props: seq<Property>, inp: Inputs, alnum: CharClass)
    : Result<seq<LoweredClaim>, Refusal>
  {
    if props == [] then Ok([])
    else
      match LowerProperty(req, props[0], inp, alnum)
      case Err(e) => Err(e)
      case Ok(claim) => Onto([claim], LowerAll(req, props[1..], inp, alnum))
  }

  function KaniBody(claims: seq<LoweredClaim>): seq<KaniStmt> {
    if claims == [] then [] else KaniAssertion(claims[0]) + KaniBody(claims[1..])
  }

  lemma {:induction false} KaniBodySnoc(claims: seq<LoweredClaim>, c: LoweredClaim)
    ensures KaniBody(claims + [c]) == KaniBody(claims) + KaniAssertion(c)
  {
    if claims == [] {
      assert claims + [c] == [c] && KaniBody([c][1..]) == [];
    } else {
      assert (claims + [c])[1..] == claims[1..] + [c];
      KaniBodySnoc(claims[1..], c);
    }
  }

  function KaniInputs(crateName: string, inp: Inputs): Inputs {
    inp.(prefix := crateName)
  }

  function CreusotInputs(inp: Inputs): Inputs {
    inp.(prefix := "crate")
  }

  ghost function Claims(req: Requirement, inp: Inputs, alnum: CharClass): Result<seq<LoweredClaim>, Refusal> {
    if req.require == [] then Err(ClaimsNothing) else LowerAll(req, req.require, inp, alnum)
  }

  lemma LowerAllFrom(req: Requirement, i: nat, inp: Inputs, alnum: CharClass)
    requires i < |req.require|
    ensures LowerAll(req, req.require[i..], inp, alnum) ==
            match LowerProperty(req, req.require[i], inp, alnum)
            case Err(e) => Err(e)
            case Ok(claim) => Onto([claim], LowerAll(req, req.require[i + 1..], inp, alnum))
  {
    assert req.require[i..][1..] == req.require[i + 1..];
  }

  lemma MapSnoc<T, U>(s: seq<T>, x: T, f: T -> U)
    ensures Map(s + [x], f) == Map(s, f) + [f(x)]
  {
  }

  method KaniLower(req: Requirement, crateName: string, inp: Inputs, name: string, alnum: CharClass)
    returns (r: Result<KaniHarness, Refusal>)
    ensures var claims := Claims(req, KaniInputs(crateName, inp), alnum);
            r == match claims
                 case Err(e) => Err(e)
                 case Ok(cs) => Ok(KaniHarness(name, crateName, KaniBody(cs)))
  {
    if req.require == [] {
      return Err(ClaimsNothing);
    }
    var at := KaniInputs(crateName, inp);
    var body := [];
    ghost var done := [];
    OntoNothing(LowerAll(req, req.require[0..], at, alnum));
    for i := 0 to |req.require|
      invariant body == KaniBody(done)
      invariant LowerAll(req, req.require, at, alnum) == Onto(done, LowerAll(req, req.require[i..], at, alnum))
    {
      var claim := LowerProperty(req, req.require[i], at, alnum);
      LowerAllFrom(req, i, at, alnum);
      if claim.Err? {
        return Err(claim.error);
      }
      OntoStep(done, claim.value, LowerAll(req, req.require[i + 1..], at, alnum));
      KaniBodySnoc(done, claim.value);
      body := body + KaniAssertion(claim.value);
      done := done + [claim.value];
    }
    assert done + [] == done;
    r := Ok(KaniHarness(name, crateName, body));
  }

  method CreusotLower(req: Requirement, inp: Inputs, name: string, alnum: CharClass)
    returns (r: Result<CreusotHarness, Refusal>)
    ensures var claims := Claims(req, CreusotInputs(inp), alnum);
            r == match claims
                 case Err(e) => Err(e)
                 case Ok(cs) => Ok(CreusotHarness(name, Map(cs, CreusotAssertion)))
  {
    if req.require == [] {
      return Err(ClaimsNothing);
    }
    var at := CreusotInputs(inp);
    var body := [];
    ghost var done := [];
    OntoNothing(LowerAll(req, req.require[0..], at, alnum));
    for i := 0 to |req.require|
      invariant body == Map(done, CreusotAssertion)
      invariant LowerAll(req, req.require, at, alnum) == Onto(done, LowerAll(req, req.require[i..], at, alnum))
    {
      var claim := LowerProperty(req, req.require[i], at, alnum);
      LowerAllFrom(req, i, at, alnum);
      if claim.Err? {
        return Err(claim.error);
      }
      OntoStep(done, claim.value, LowerAll(req, req.require[i + 1..], at, alnum));
      MapSnoc(done, claim.value, CreusotAssertion);
      body := body + [CreusotAssertion(claim.value)];
      done := done + [claim.value];
    }
    assert done + [] == done;
    r := Ok(CreusotHarness(name, body));
  }

  // ----- What the harnesses assert -----

  ghost function TypeRead(prefix: string, ty: TypeText): Option<TypeRef> {
    match ty
    case Bare(name) => Some(PrimitiveRef(name))
    case PathType(path) =>
      (match InCrate(prefix, path) case None => None case Some(item) => Some(DeclaredRef(item)))
    case AppliedType(head, args) =>
      match InCrate(prefix, head)
      case None => None
      case Some(item) =>
        match TypesRead(prefix, args)
        case None => None
        case Some(refs) => Some(AppliedRef(item, refs))
  }

  ghost function TypesRead(prefix: string, tys: seq<TypeText>): Option<seq<TypeRef>> {
    if tys == [] then Some([])
    else
      match TypeRead(prefix, tys[0])
      case None => None
      case Some(t) =>
        match TypesRead(prefix, tys[1..])
        case None => None
        case Some(rest) => Some([t] + rest)
  }

  ghost predicate HasType<V>(s: Subject<V>, prefix: string, ty: TypeText, v: V) {
    TypeRead(prefix, ty).Some? && s.inhabits(TypeRead(prefix, ty).value, v)
  }

  ghost predicate TextHolds<V>(s: Subject<V>, prefix: string, text: seq<Token>, env: Env<V>) {
    ReadAll(text).Some? && Eval(s, prefix, ReadAll(text).value, env) == Some(true)
  }

  /** Running a Kani body: `let` picks any value of its type, a block forgets its bindings when it closes. */
  ghost predicate KaniHolds<V(!new)>(s: Subject<V>, prefix: string, body: seq<KaniStmt>, scopes: seq<Env<V>>)
    requires scopes != []
    decreases |body|
  {
    if body == [] then true
    else
      var inner := scopes[|scopes| - 1];
      match body[0]
      case Open => KaniHolds(s, prefix, body[1..], scopes + [inner])
      case Close => |scopes| > 1 && KaniHolds(s, prefix, body[1..], scopes[..|scopes| - 1])
      case Assert(condition) => TextHolds(s, prefix, condition, inner) && KaniHolds(s, prefix, body[1..], scopes)
      case Let(q) =>
        forall v: V | HasType(s, prefix, q.ty, v) ::
          KaniHolds(s, prefix, body[1..], scopes[..|scopes| - 1] + [inner[q.name := v]])
  }

  ghost predicate Quantifies(qs: seq<Quantified>, name: string) {
    exists q :: q in qs && q.name == name
  }

  ghost predicate QuantifierFits<V>(s: Subject<V>, prefix: string, q: Quantified, env: Env<V>) {
    q.name in env && HasType(s, prefix, q.ty, env[q.name])
  }

  /** The assignments a list of quantifiers ranges over, all at once. */
  ghost predicate Ranges<V>(s: Subject<V>, prefix: string, qs: seq<Quantified>, env: Env<V>) {
    && (forall q <- qs :: QuantifierFits(s, prefix, q, env))
    && forall k :: k in env ==> Quantifies(qs, k)
  }

  ghost predicate ClaimTextHolds<V(!new)>(s: Subject<V>, prefix: string, claim: LoweredClaim) {
    forall env: Env<V> | Ranges(s, prefix, claim.quantified, env) :: TextHolds(s, prefix, claim.claim, env)
  }

  ghost predicate ProofAssertHolds<V(!new)>(s: Subject<V>, a: ProofAssert) {
    match a
    case Ground(claim) => TextHolds(s, "crate", claim, map[])
    case Forall(binders, claim) =>
      forall env: Env<V> | Ranges(s, "crate", binders, env) :: TextHolds(s, "crate", claim, env)
  }

  ghost predicate CreusotHolds<V(!new)>(s: Subject<V>, body: seq<ProofAssert>) {
    forall a <- body :: ProofAssertHolds(s, a)
  }

  // ----- A run of `let`s is one simultaneous assignment -----

  ghost predicate DistinctNames(qs: seq<Quantified>) {
    forall i, j :: 0 <= i < j < |qs| ==> qs[i].name != qs[j].name
  }

  /** `after` is `before` with a value of the right type for every quantifier, and nothing else changed. */
  ghost predicate Assigns<V>(s: Subject<V>, prefix: string, qs: seq<Quantified>, before: Env<V>, after: Env<V>) {
    && (forall q <- qs :: q.name in after && HasType(s, prefix, q.ty, after[q.name]))
    && (forall k :: k in after ==> k in before || exists q :: q in qs && q.name == k)
    && (forall k :: k in before ==> k in after && ((forall q <- qs :: q.name != k) ==> after[k] == before[k]))
  }

  lemma AssignsFirst<V(!new)>(s: Subject<V>, prefix: string, qs: seq<Quantified>, before: Env<V>, after: Env<V>)
    requires qs != [] && DistinctNames(qs)
    ensures Assigns(s, prefix, qs, before, after) <==>
            exists v: V ::
              HasType(s, prefix, qs[0].ty, v) && Assigns(s, prefix, qs[1..], before[qs[0].name := v], after)
  {
    assert forall q :: q in qs <==> q == qs[0] || q in qs[1..];
    if Assigns(s, prefix, qs, before, after) {
      assert Assigns(s, prefix, qs[1..], before[qs[0].name := after[qs[0].name]], after);
    }
    if v: V :| HasType(s, prefix, qs[0].ty, v) && Assigns(s, prefix, qs[1..], before[qs[0].name := v], after) {
      assert forall q <- qs[1..] :: q.name != qs[0].name;
    }
  }

  /** A body that holds below the scope `env`. */
  ghost predicate After<V(!new)>(
    s: Subject<V>, prefix: string, body: seq<KaniStmt>, outer: seq<Env<V>>, env: Env<V>)
  {
    KaniHolds(s, prefix, body, outer + [env])
  }

  ghost predicate HoldsAfter<V(!new)>(
    s: Subject<V>, prefix: string, qs: seq<Quantified>, rest: seq<KaniStmt>, outer: seq<Env<V>>, env: Env<V>)
  {
    forall after: Env<V> | Assigns(s, prefix, qs, env, after) :: After(s, prefix, rest, outer, after)
  }

  lemma HoldsAfterFirst<V(!new)>(
    s: Subject<V>, prefix: string, qs: seq<Quantified>, rest: seq<KaniStmt>, outer: seq<Env<V>>, env: Env<V>)
    requires qs != [] && DistinctNames(qs)
    ensures HoldsAfter(s, prefix, qs, rest, outer, env) <==>
            forall v: V | HasType(s, prefix, qs[0].ty, v) ::
              HoldsAfter(s, prefix, qs[1..], rest, outer, env[qs[0].name := v])
  {
    forall after: Env<V> {
      AssignsFirst(s, prefix, qs, env, after);
    }
  }

  lemma NoLets<V(!new)>(s: Subject<V>, prefix: string, rest: seq<KaniStmt>, outer: seq<Env<V>>, env: Env<V>)
    ensures HoldsAfter(s, prefix, [], rest, outer, env) <==> After(s, prefix, rest, outer, env)
  {
    forall after: Env<V> ensures Assigns(s, prefix, [], env, after) <==> after == env {
    }
  }

  lemma FirstLet<V(!new)>(
    s: Subject<V>, prefix: string, q: Quantified, rest: seq<KaniStmt>, outer: seq<Env<V>>, env: Env<V>)
    ensures After(s, prefix, [Let(q)] + rest, outer, env) <==>
            forall v: V | HasType(s, prefix, q.ty, v) :: After(s, prefix, rest, outer, env[q.name := v])
  {
    assert ([Let(q)] + rest)[1..] == rest;
    assert (outer + [env])[..|outer|] == outer;
  }

  lemma LetsFirst(qs: seq<Quantified>, rest: seq<KaniStmt>)
    requires qs != []
    ensures Lets(qs) + rest == [Let(qs[0])] + (Lets(qs[1..]) + rest)
  {
  }

  lemma LetsHoldNext<V(!new)>(
    s: Subject<V>, prefix: string, qs: seq<Quantified>, rest: seq<KaniStmt>, outer: seq<Env<V>>, env: Env<V>)
    requires DistinctNames(qs) && qs != []
    requires forall e: Env<V> ::
               After(s, prefix, Lets(qs[1..]) + rest, outer, e) <==> HoldsAfter(s, prefix, qs[1..], rest, outer, e)
    ensures After(s, prefix, Lets(qs) + rest, outer, env) <==> HoldsAfter(s, prefix, qs, rest, outer, env)
  {
    LetsFirst(qs, rest);
    FirstLet(s, prefix, qs[0], Lets(qs[1..]) + rest, outer, env);
    HoldsAfterFirst(s, prefix, qs, rest, outer, env);
  }

  lemma {:induction false} LetsHold<V(!new)>(
    s: Subject<V>, prefix: string, qs: seq<Quantified>, rest: seq<KaniStmt>, outer: seq<Env<V>>, env: Env<V>)
    requires DistinctNames(qs)
    ensures After(s, prefix, Lets(qs) + rest, outer, env) <==> HoldsAfter(s, prefix, qs, rest, outer, env)
    decreases |qs|
  {
    if qs == [] {
      assert Lets(qs) + rest == rest;
      NoLets(s, prefix, rest, outer, env);
    } else {
      forall e: Env<V>
        ensures After(s, prefix, Lets(qs[1..]) + rest, outer, e) <==>
                HoldsAfter(s, prefix, qs[1..], rest, outer, e)
      {
        LetsHold(s, prefix, qs[1..], rest, outer, e);
      }
      LetsHoldNext(s, prefix, qs, rest, outer, env);
    }
  }

  // ----- A Kani body asserts each claim's closure -----

  lemma AssertThenClose<V(!new)>(
    s: Subject<V>, prefix: string, claim: LoweredClaim, rest: seq<KaniStmt>, outer: Env<V>, env: Env<V>)
    ensures After(s, prefix, [Assert(claim.claim), Close] + rest, [outer], env) <==>
            TextHolds(s, prefix, claim.claim, env) && KaniHolds(s, prefix, rest, [outer])
  {
    var tail := [Assert(claim.claim), Close] + rest;
    assert tail[1..] == [Close] + rest && tail[1..][1..] == rest;
    assert ([outer] + [env])[..1] == [outer];
    assert KaniHolds(s, prefix, [Close] + rest, [outer] + [env]) <==> KaniHolds(s, prefix, rest, [outer]);
  }

  lemma OpenBlock<V(!new)>(s: Subject<V>, prefix: string, claim: LoweredClaim, rest: seq<KaniStmt>, env: Env<V>)
    ensures KaniHolds(s, prefix, KaniAssertion(claim) + rest, [env]) <==>
            After(s, prefix, Lets(claim.quantified) + ([Assert(claim.claim), Close] + rest), [env], env)
  {
    var body := KaniAssertion(claim) + rest;
    assert body[1..] == Lets(claim.quantified) + ([Assert(claim.claim), Close] + rest);
  }

  lemma AssignsFromNothing<V>(s: Subject<V>, prefix: string, qs: seq<Quantified>, env: Env<V>)
    ensures Assigns(s, prefix, qs, map[], env) <==> Ranges(s, prefix, qs, env)
  {
  }

  lemma BlockHolds<V(!new)>(s: Subject<V>, prefix: string, claim: LoweredClaim, rest: seq<KaniStmt>)
    requires DistinctNames(claim.quantified)
    ensures KaniHolds(s, prefix, KaniAssertion(claim) + rest, [map[]]) <==>
            && ClaimTextHolds(s, prefix, claim)
            && ((exists env: Env<V> :: Ranges(s, prefix, claim.quantified, env)) ==>
                  KaniHolds(s, prefix, rest, [map[]]))
  {
    var qs := claim.quantified;
    var tail := [Assert(claim.claim), Close] + rest;
    var none: Env<V> := map[];
    OpenBlock(s, prefix, claim, rest, none);
    LetsHold(s, prefix, qs, tail, [none], none);
    forall env: Env<V>
      ensures Assigns(s, prefix, qs, none, env) <==> Ranges(s, prefix, qs, env)
      ensures After(s, prefix, tail, [none], env) <==>
              TextHolds(s, prefix, claim.claim, env) && KaniHolds(s, prefix, rest, [none])
    {
      AssignsFromNothing(s, prefix, qs, env);
      AssertThenClose(s, prefix, claim, rest, none, env);
    }
  }

  // ----- Both harnesses against the requirement itself -----

  ghost function SortRef(b: Binder, inp: Inputs): Option<TypeRef> {
    if b.sort.None? || b.sort.value !in inp.sorts || FindBinding(inp.bindings, b.sort.value).None? then None
    else
      var written := Trim(inp.bindings[FindBinding(inp.bindings, b.sort.value).value].observable);
      match inp.sorts[b.sort.value]
      case Primitive(name) => Some(PrimitiveRef(name))
      case Declared(at) => if at.path.Some? then Some(DeclaredRef(at.path.value + [ItemName(written)])) else None
      case Applied(at, args) =>
        if at.path.Some? && ArgRefs(args).Some?
        then Some(AppliedRef(at.path.value + [ItemName(HeadOf(written))], ArgRefs(args).value))
        else None
      case NoType => None
  }

  ghost function ArgRefs(args: seq<(string, ArgResolution)>): Option<seq<TypeRef>> {
    if args == [] then Some([])
    else
      var rest := ArgRefs(args[1..]);
      match args[0].1
      case PrimitiveArg(name) => if rest.Some? then Some([PrimitiveRef(name)] + rest.value) else None
      case DeclaredArg(at) =>
        if at.path.Some? && rest.Some?
        then Some([DeclaredRef(at.path.value + [ItemName(args[0].0)])] + rest.value)
        else None
  }

  ghost predicate BinderFits<V>(s: Subject<V>, b: Binder, inp: Inputs, env: Env<V>) {
    b.name in env && SortRef(b, inp).Some? && s.inhabits(SortRef(b, inp).value, env[b.name])
  }

  /** An assignment gives every binder, and nothing else, a value of the type its sort is bound to. */
  ghost predicate Assignment<V>(s: Subject<V>, binders: seq<Binder>, inp: Inputs, env: Env<V>) {
    && (forall b <- binders :: BinderFits(s, b, inp, env))
    && forall k :: k in env ==> Binds(binders, k)
  }

  /** The universal closure of one property. */
  ghost predicate ClosureHolds<V(!new)>(s: Subject<V>, req: Requirement, prop: Property, inp: Inputs, alnum: CharClass)
    requires IsInvariant(prop.pattern)
  {
    var binders := Binders(req, prop, alnum);
    forall env: Env<V> | Assignment(s, binders, inp, env) ::
      ClaimTruth(s, BinderWins, req, prop.pattern, binders, inp, env) == Some(true)
  }

  /** The signatures are read correctly for every call some assignment makes. */
  ghost predicate ClosureRead<V(!new)>(s: Subject<V>, req: Requirement, prop: Property, inp: Inputs, alnum: CharClass) {
    IsInvariant(prop.pattern) ==>
      forall env: Env<V> | Assignment(s, Binders(req, prop, alnum), inp, env) ::
        ClaimRead(s, ClaimOf(prop.pattern), Binders(req, prop, alnum), inp, env)
  }

  ghost predicate SignaturesRead<V(!new)>(s: Subject<V>, req: Requirement, inp: Inputs, alnum: CharClass) {
    forall prop <- req.require :: ClosureRead(s, req, prop, inp, alnum)
  }

  lemma {:induction false} ArgTypesRead(prefix: string, args: seq<(string, ArgResolution)>)
    requires ArgTypes(prefix, args).Ok?
    ensures TypesRead(prefix, ArgTypes(prefix, args).value) == ArgRefs(args) && ArgRefs(args).Some?
  {
    if args != [] {
      ArgTypesRead(prefix, args[1..]);
      var tys := ArgTypes(prefix, args).value;
      assert tys[1..] == ArgTypes(prefix, args[1..]).value;
      match args[0].1 {
        case PrimitiveArg(_) =>
        case DeclaredArg(at) => PathOfInCrate(prefix, at.path, args[0].0);
      }
    }
  }

  lemma SortTypeRead(b: Binder, inp: Inputs)
    requires SortType(b, inp).Ok?
    ensures TypeRead(inp.prefix, SortType(b, inp).value) == SortRef(b, inp) && SortRef(b, inp).Some?
  {
    var written := Trim(inp.bindings[FindBinding(inp.bindings, b.sort.value).value].observable);
    match inp.sorts[b.sort.value] {
      case Primitive(_) =>
      case Declared(at) => PathOfInCrate(inp.prefix, at.path, written);
      case Applied(at, args) =>
        PathOfInCrate(inp.prefix, at.path, HeadOf(written));
        ArgTypesRead(inp.prefix, args);
    }
  }

  lemma {:induction false} Pointwise(
    qs: seq<Quantified>, binders: seq<Binder>, good: Quantified -> bool, fine: Binder -> bool)
    requires |qs| == |binders|
    requires forall i :: 0 <= i < |qs| ==> qs[i].name == binders[i].name && good(qs[i]) == fine(binders[i])
    ensures (forall q <- qs :: good(q)) <==> (forall b <- binders :: fine(b))
    ensures forall k :: Quantifies(qs, k) <==> Binds(binders, k)
  {
    if qs != [] {
      Pointwise(qs[1..], binders[1..], good, fine);
      assert forall q :: q in qs <==> q == qs[0] || q in qs[1..];
      assert forall b :: b in binders <==> b == binders[0] || b in binders[1..];
    }
  }

  lemma QuantifierFitsBinder<V>(s: Subject<V>, b: Binder, inp: Inputs, env: Env<V>)
    requires SortType(b, inp).Ok?
    ensures QuantifierFits(s, inp.prefix, Quantified(b.name, SortType(b, inp).value), env) == BinderFits(s, b, inp, env)
  {
    SortTypeRead(b, inp);
  }

  lemma RangesAreAssignments<V>(s: Subject<V>, binders: seq<Binder>, inp: Inputs, env: Env<V>)
    requires Quantify(binders, inp).Ok?
    ensures Ranges(s, inp.prefix, Quantify(binders, inp).value, env) <==> Assignment(s, binders, inp, env)
  {
    QuantifySucceeds(binders, inp);
    var qs := Quantify(binders, inp).value;
    var good := (q: Quantified) => QuantifierFits(s, inp.prefix, q, env);
    var fine := (b: Binder) => BinderFits(s, b, inp, env);
    forall i | 0 <= i < |binders| ensures good(qs[i]) == fine(binders[i]) {
      QuantifierFitsBinder(s, binders[i], inp, env);
      assert qs[i] == Quantified(binders[i].name, SortType(binders[i], inp).value);
    }
    Pointwise(qs, binders, good, fine);
  }

  /** One lowered claim, quantified as written, is the closure of its property. */
  lemma ClaimTextIsClosure<V(!new)>(s: Subject<V>, req: Requirement, prop: Property, inp: Inputs, alnum: CharClass)
    requires LowerProperty(req, prop, inp, alnum).Ok? && ClosureRead(s, req, prop, inp, alnum)
    ensures IsInvariant(prop.pattern)
    ensures DistinctNames(LowerProperty(req, prop, inp, alnum).value.quantified)
    ensures ClaimTextHolds(s, inp.prefix, LowerProperty(req, prop, inp, alnum).value) <==>
            ClosureHolds(s, req, prop, inp, alnum)
  {
    var binders := Binders(req, prop, alnum);
    var claim := LowerProperty(req, prop, inp, alnum).value;
    LowersExactlyWhen(req, prop, inp, alnum);
    LoweredClaimIsClosed(req, prop, inp, alnum);
    forall env: Env<V>
      ensures Ranges(s, inp.prefix, claim.quantified, env) <==> Assignment(s, binders, inp, env)
      ensures Assignment(s, binders, inp, env) ==>
                (TextHolds(s, inp.prefix, claim.claim, env) <==>
                 ClaimTruth(s, BinderWins, req, prop.pattern, binders, inp, env) == Some(true))
    {
      RangesAreAssignments(s, binders, inp, env);
      if Assignment(s, binders, inp, env) {
        LoweringPreservesMeaning(s, req, prop, inp, alnum, env);
      }
    }
  }

  lemma {:induction false} LowerAllSucceeds(req: Requirement, props: seq<Property>, inp: Inputs, alnum: CharClass)
    ensures LowerAll(req, props, inp, alnum).Ok? <==> forall p <- props :: LowerProperty(req, p, inp, alnum).Ok?
  {
    if props != [] {
      LowerAllSucceeds(req, props[1..], inp, alnum);
      AllOfCons(props, p => LowerProperty(req, p, inp, alnum).Ok?);
    }
  }

  lemma LowerAllCons(req: Requirement, props: seq<Property>, inp: Inputs, alnum: CharClass)
    requires props != [] && LowerAll(req, props, inp, alnum).Ok?
    ensures LowerProperty(req, props[0], inp, alnum).Ok? && LowerAll(req, props[1..], inp, alnum).Ok?
    ensures LowerAll(req, props, inp, alnum).value ==
            [LowerProperty(req, props[0], inp, alnum).value] + LowerAll(req, props[1..], inp, alnum).value
  {
  }

  lemma {:induction false} LowerAllInOrder(req: Requirement, props: seq<Property>, inp: Inputs, alnum: CharClass)
    requires LowerAll(req, props, inp, alnum).Ok?
    ensures LoweredEach(req, props, inp, alnum, LowerAll(req, props, inp, alnum).value)
  {
    if props != [] {
      LowerAllCons(req, props, inp, alnum);
      LowerAllInOrder(req, props[1..], inp, alnum);
      LoweredEachCons(req, props, inp, alnum, LowerAll(req, props[1..], inp, alnum).value);
    }
  }

  lemma LoweredEachCons(
    req: Requirement, props: seq<Property>, inp: Inputs, alnum: CharClass, others: seq<LoweredClaim>)
    requires props != [] && LowerProperty(req, props[0], inp, alnum).Ok?
    requires LoweredEach(req, props[1..], inp, alnum, others)
    ensures LoweredEach(req, props, inp, alnum, [LowerProperty(req, props[0], inp, alnum).value] + others)
  {
    var lowers := (p: Property, c: LoweredClaim) => LowerProperty(req, p, inp, alnum) == Ok(c);
    PairwiseCons(props, LowerProperty(req, props[0], inp, alnum).value, others, lowers);
  }

  ghost predicate Pairwise<T(!new), U(!new)>(xs: seq<T>, ys: seq<U>, related: (T, U) -> bool) {
    |xs| == |ys| && forall i :: 0 <= i < |xs| ==> related(xs[i], ys[i])
  }

  lemma PairwiseCons<T(!new), U(!new)>(xs: seq<T>, y: U, ys: seq<U>, related: (T, U) -> bool)
    requires xs != [] && related(xs[0], y) && Pairwise(xs[1..], ys, related)
    ensures Pairwise(xs, [y] + ys, related)
  {
    forall i | 0 < i < |xs| ensures related(xs[i], ([y] + ys)[i]) {
      assert related(xs[1..][i - 1], ys[i - 1]);
    }
  }

  ghost predicate LoweredEach(
    req: Requirement, props: seq<Property>, inp: Inputs, alnum: CharClass, claims: seq<LoweredClaim>)
  {
    Pairwise(props, claims, (p: Property, c: LoweredClaim) => LowerProperty(req, p, inp, alnum) == Ok(c))
  }

  lemma AllOfCons(props: seq<Property>, p: Property -> bool)
    requires props != []
    ensures (forall x <- props :: p(x)) <==> p(props[0]) && forall x <- props[1..] :: p(x)
  {
    assert forall x :: x in props <==> x == props[0] || x in props[1..];
  }

  lemma LowerableAnyPrefix(prop: Property, binders: seq<Binder>, inp: Inputs, prefix: string)
    ensures Lowerable(prop, binders, inp) <==> Lowerable(prop, binders, inp.(prefix := prefix))
  {
    var other := inp.(prefix := prefix);
    if IsInvariant(prop.pattern) {
      forall a ensures AtomLowers(a, binders, inp) <==> AtomLowers(a, binders, other) {
      }
    }
    forall b ensures SortLowers(b, inp) <==> SortLowers(b, other) {
    }
  }

  lemma LowersAnyPrefix(req: Requirement, prop: Property, inp: Inputs, prefix: string, alnum: CharClass)
    ensures LowerProperty(req, prop, inp.(prefix := prefix), alnum).Ok? <==> LowerProperty(req, prop, inp, alnum).Ok?
  {
    LowersExactlyWhen(req, prop, inp, alnum);
    LowersExactlyWhen(req, prop, inp.(prefix := prefix), alnum);
    LowerableAnyPrefix(prop, Binders(req, prop, alnum), inp, prefix);
  }

  /** Both engines build a harness, or both refuse; and one exists only if every property lowers. */
  lemma HarnessesExistTogether(req: Requirement, crateName: string, inp: Inputs, alnum: CharClass)
    ensures Claims(req, KaniInputs(crateName, inp), alnum).Ok? <==> Claims(req, CreusotInputs(inp), alnum).Ok?
    ensures Claims(req, CreusotInputs(inp), alnum).Ok? <==>
            req.require != [] && forall p <- req.require :: Lowerable(p, Binders(req, p, alnum), inp)
  {
    LowerAllSucceeds(req, req.require, KaniInputs(crateName, inp), alnum);
    LowerAllSucceeds(req, req.require, CreusotInputs(inp), alnum);
    forall p | p in req.require
      ensures LowerProperty(req, p, KaniInputs(crateName, inp), alnum).Ok? <==>
              Lowerable(p, Binders(req, p, alnum), inp)
      ensures LowerProperty(req, p, CreusotInputs(inp), alnum).Ok? <==> Lowerable(p, Binders(req, p, alnum), inp)
    {
      LowersExactlyWhen(req, p, KaniInputs(crateName, inp), alnum);
      LowersExactlyWhen(req, p, CreusotInputs(inp), alnum);
      LowerableAnyPrefix(p, Binders(req, p, alnum), inp, crateName);
      LowerableAnyPrefix(p, Binders(req, p, alnum), inp, "crate");
    }
  }

  lemma {:induction false} ExprTruthAnyPrefix<V>(
    s: Subject<V>, vocabulary: seq<Decl>, e: Expr, binders: seq<Binder>, inp: Inputs, prefix: string, env: Env<V>)
    ensures ExprTruth(s, BinderWins, vocabulary, e, binders, inp, env) ==
            ExprTruth(s, BinderWins, vocabulary, e, binders, inp.(prefix := prefix), env)
  {
    match e {
      case Apply(a) =>
      case Not(inner) => ExprTruthAnyPrefix(s, vocabulary, inner, binders, inp, prefix, env);
      case And(l, r) =>
        ExprTruthAnyPrefix(s, vocabulary, l, binders, inp, prefix, env);
        ExprTruthAnyPrefix(s, vocabulary, r, binders, inp, prefix, env);
      case Or(l, r) =>
        ExprTruthAnyPrefix(s, vocabulary, l, binders, inp, prefix, env);
        ExprTruthAnyPrefix(s, vocabulary, r, binders, inp, prefix, env);
    }
  }

  ghost predicate HasAssignment<V(!new)>(
    s: Subject<V>, req: Requirement, prop: Property, inp: Inputs, alnum: CharClass)
  {
    exists env: Env<V> :: Assignment(s, Binders(req, prop, alnum), inp, env)
  }

  lemma ClosureAnyPrefix<V(!new)>(
    s: Subject<V>, req: Requirement, prop: Property, inp: Inputs, prefix: string, alnum: CharClass)
    requires IsInvariant(prop.pattern)
    ensures ClosureHolds(s, req, prop, inp, alnum) <==> ClosureHolds(s, req, prop, inp.(prefix := prefix), alnum)
    ensures HasAssignment(s, req, prop, inp, alnum) <==> HasAssignment(s, req, prop, inp.(prefix := prefix), alnum)
    ensures ClosureRead(s, req, prop, inp, alnum) <==> ClosureRead(s, req, prop, inp.(prefix := prefix), alnum)
  {
    var binders := Binders(req, prop, alnum);
    forall env: Env<V>
      ensures Assignment(s, binders, inp, env) <==> Assignment(s, binders, inp.(prefix := prefix), env)
      ensures ClaimTruth(s, BinderWins, req, prop.pattern, binders, inp, env) ==
              ClaimTruth(s, BinderWins, req, prop.pattern, binders, inp.(prefix := prefix), env)
    {
      assert forall b :: SortRef(b, inp) == SortRef(b, inp.(prefix := prefix));
      ExprTruthAnyPrefix(s, req.vocabulary, ClaimOf(prop.pattern), binders, inp, prefix, env);
    }
    forall env: Env<V>
      ensures ClaimRead(s, ClaimOf(prop.pattern), binders, inp, env) <==>
              ClaimRead(s, ClaimOf(prop.pattern), binders, inp.(prefix := prefix), env)
    {
      assert forall a :: AtomRead(s, a, inp, env) == AtomRead(s, a, inp.(prefix := prefix), env);
    }
  }

  ghost predicate AllInvariant(req: Requirement) {
    forall p <- req.require :: IsInvariant(p.pattern)
  }

  /** The closed formula both harnesses stand for. */
  ghost predicate RequirementHolds<V(!new)>(s: Subject<V>, req: Requirement, inp: Inputs, alnum: CharClass)
    requires AllInvariant(req)
  {
    forall p <- req.require :: ClosureHolds(s, req, p, inp, alnum)
  }

  /** The Creusot harness asserts exactly the conjunction of the properties' closures. */
  lemma CreusotAssertsRequirement<V(!new)>(s: Subject<V>, req: Requirement, inp: Inputs, alnum: CharClass)
    requires Claims(req, CreusotInputs(inp), alnum).Ok? && SignaturesRead(s, req, inp, alnum)
    ensures AllInvariant(req)
    ensures CreusotHolds(s, Map(Claims(req, CreusotInputs(inp), alnum).value, CreusotAssertion)) <==>
            RequirementHolds(s, req, inp, alnum)
  {
    var at := CreusotInputs(inp);
    var claims := Claims(req, at, alnum).value;
    var body := Map(claims, CreusotAssertion);
    LowerAllInOrder(req, req.require, at, alnum);
    forall i | 0 <= i < |claims|
      ensures IsInvariant(req.require[i].pattern)
      ensures ClaimTextHolds(s, "crate", claims[i]) <==> ClosureHolds(s, req, req.require[i], inp, alnum)
      ensures ProofAssertHolds(s, body[i]) <==> ClaimTextHolds(s, "crate", claims[i])
    {
      assert LowerProperty(req, req.require[i], at, alnum) == Ok(claims[i]);
      assert req.require[i] in req.require;
      LowersExactlyWhen(req, req.require[i], at, alnum);
      ClosureAnyPrefix(s, req, req.require[i], inp, "crate", alnum);
      ClaimTextIsClosure(s, req, req.require[i], at, alnum);
      CreusotAssertionHolds(s, claims[i]);
    }
    assert RequirementHolds(s, req, inp, alnum) <==>
           forall i :: 0 <= i < |claims| ==> ClosureHolds(s, req, req.require[i], inp, alnum);
  }

  lemma CreusotAssertionHolds<V(!new)>(s: Subject<V>, claim: LoweredClaim)
    ensures ProofAssertHolds(s, CreusotAssertion(claim)) <==> ClaimTextHolds(s, "crate", claim)
  {
    if claim.quantified == [] {
      var none: Env<V> := map[];
      assert Ranges(s, "crate", claim.quantified, none);
      assert forall env: Env<V> | Ranges(s, "crate", claim.quantified, env) :: env == none;
    }
  }

  // ----- What a Kani body asserts, block after block -----

  /** Each closure, as far as the properties before it can be assigned values at all. */
  ghost predicate HoldInOrder<V(!new)>(
    s: Subject<V>, req: Requirement, props: seq<Property>, inp: Inputs, alnum: CharClass)
    requires forall p <- props :: IsInvariant(p.pattern)
  {
    props == [] ||
    (ClosureHolds(s, req, props[0], inp, alnum)
     && (HasAssignment(s, req, props[0], inp, alnum) ==> HoldInOrder(s, req, props[1..], inp, alnum)))
  }

  lemma BlockIsClosure<V(!new)>(
    s: Subject<V>, req: Requirement, prop: Property, inp: Inputs, alnum: CharClass, rest: seq<KaniStmt>)
    requires LowerProperty(req, prop, inp, alnum).Ok? && ClosureRead(s, req, prop, inp, alnum)
    ensures IsInvariant(prop.pattern)
    ensures KaniHolds(s, inp.prefix, KaniAssertion(LowerProperty(req, prop, inp, alnum).value) + rest, [map[]]) <==>
            && ClosureHolds(s, req, prop, inp, alnum)
            && (HasAssignment(s, req, prop, inp, alnum) ==> KaniHolds(s, inp.prefix, rest, [map[]]))
  {
    var claim := LowerProperty(req, prop, inp, alnum).value;
    ClaimTextIsClosure(s, req, prop, inp, alnum);
    BlockHolds(s, inp.prefix, claim, rest);
    var binders := Binders(req, prop, alnum);
    forall env: Env<V>
      ensures Ranges(s, inp.prefix, claim.quantified, env) <==> Assignment(s, binders, inp, env)
    {
      RangesAreAssignments(s, binders, inp, env);
    }
  }

  lemma {:induction false} KaniBodyHolds<V(!new)>(
    s: Subject<V>, req: Requirement, props: seq<Property>, inp: Inputs, alnum: CharClass)
    requires LowerAll(req, props, inp, alnum).Ok?
    requires forall p <- props :: ClosureRead(s, req, p, inp, alnum)
    ensures forall p <- props :: IsInvariant(p.pattern)
    ensures KaniHolds(s, inp.prefix, KaniBody(LowerAll(req, props, inp, alnum).value), [map[]]) <==>
            HoldInOrder(s, req, props, inp, alnum)
  {
    if props != [] {
      LowerAllCons(req, props, inp, alnum);
      KaniBodyHolds(s, req, props[1..], inp, alnum);
      BlockIsClosure(s, req, props[0], inp, alnum, KaniBody(LowerAll(req, props[1..], inp, alnum).value));
      assert forall p :: p in props <==> p == props[0] || p in props[1..];
    }
  }

  /** Nothing before property `i` keeps a run from reaching it. */
  ghost predicate Reached<V(!new)>(
    s: Subject<V>, req: Requirement, props: seq<Property>, inp: Inputs, alnum: CharClass, i: nat)
    requires i <= |props|
  {
    forall j :: 0 <= j < i ==> HasAssignment(s, req, props[j], inp, alnum)
  }

  /** Without the recursion: every property a run reaches holds. */
  ghost predicate ReachedHold<V(!new)>(
    s: Subject<V>, req: Requirement, props: seq<Property>, inp: Inputs, alnum: CharClass)
    requires forall p <- props :: IsInvariant(p.pattern)
  {
    forall i: nat :: i < |props| && Reached(s, req, props, inp, alnum, i) ==> ClosureHolds(s, req, props[i], inp, alnum)
  }

  lemma ReachedCons<V(!new)>(
    s: Subject<V>, req: Requirement, props: seq<Property>, inp: Inputs, alnum: CharClass, i: nat)
    requires i + 1 < |props|
    ensures Reached(s, req, props, inp, alnum, i + 1) <==>
            HasAssignment(s, req, props[0], inp, alnum) && Reached(s, req, props[1..], inp, alnum, i)
  {
    if Reached(s, req, props, inp, alnum, i + 1) {
      forall j | 0 <= j < i ensures HasAssignment(s, req, props[1..][j], inp, alnum) {
        assert props[1..][j] == props[j + 1];
      }
    }
    if HasAssignment(s, req, props[0], inp, alnum) && Reached(s, req, props[1..], inp, alnum, i) {
      forall j | 0 <= j < i + 1 ensures HasAssignment(s, req, props[j], inp, alnum) {
        if j > 0 {
          assert props[1..][j - 1] == props[j];
        }
      }
    }
  }

  lemma ReachedHoldCons<V(!new)>(
    s: Subject<V>, req: Requirement, props: seq<Property>, inp: Inputs, alnum: CharClass)
    requires props != [] && forall p <- props :: IsInvariant(p.pattern)
    ensures ReachedHold(s, req, props, inp, alnum) <==>
            && ClosureHolds(s, req, props[0], inp, alnum)
            && (HasAssignment(s, req, props[0], inp, alnum) ==> ReachedHold(s, req, props[1..], inp, alnum))
  {
    assert Reached(s, req, props, inp, alnum, 0);
    if ReachedHold(s, req, props, inp, alnum) && HasAssignment(s, req, props[0], inp, alnum) {
      forall i: nat | i < |props[1..]| && Reached(s, req, props[1..], inp, alnum, i)
        ensures ClosureHolds(s, req, props[1..][i], inp, alnum)
      {
        ReachedCons(s, req, props, inp, alnum, i);
        assert props[1..][i] == props[i + 1];
      }
    }
    if && ClosureHolds(s, req, props[0], inp, alnum)
       && (HasAssignment(s, req, props[0], inp, alnum) ==> ReachedHold(s, req, props[1..], inp, alnum))
    {
      forall i: nat | i < |props| && Reached(s, req, props, inp, alnum, i)
        ensures ClosureHolds(s, req, props[i], inp, alnum)
      {
        if i > 0 {
          ReachedCons(s, req, props, inp, alnum, i - 1);
          assert props[1..][i - 1] == props[i];
        }
      }
    }
  }

  lemma {:induction false} HoldInOrderMeans<V(!new)>(
    s: Subject<V>, req: Requirement, props: seq<Property>, inp: Inputs, alnum: CharClass)
    requires forall p <- props :: IsInvariant(p.pattern)
    ensures HoldInOrder(s, req, props, inp, alnum) <==> ReachedHold(s, req, props, inp, alnum)
  {
    if props != [] {
      HoldInOrderMeans(s, req, props[1..], inp, alnum);
      ReachedHoldCons(s, req, props, inp, alnum);
    }
  }

  lemma ReachedHoldAnyPrefix<V(!new)>(
    s: Subject<V>, req: Requirement, props: seq<Property>, inp: Inputs, prefix: string, alnum: CharClass)
    requires forall p <- props :: IsInvariant(p.pattern)
    ensures ReachedHold(s, req, props, inp, alnum) <==> ReachedHold(s, req, props, inp.(prefix := prefix), alnum)
  {
    var at := inp.(prefix := prefix);
    forall i | 0 <= i < |props|
      ensures HasAssignment(s, req, props[i], inp, alnum) == HasAssignment(s, req, props[i], at, alnum)
      ensures ClosureHolds(s, req, props[i], inp, alnum) == ClosureHolds(s, req, props[i], at, alnum)
    {
      assert props[i] in props;
      ClosureAnyPrefix(s, req, props[i], inp, prefix, alnum);
    }
    forall i: nat | i < |props|
      ensures Reached(s, req, props, inp, alnum, i) == Reached(s, req, props, at, alnum, i)
    {
    }
  }

  // ----- Where the two harnesses differ -----

  ghost predicate KaniSays<V(!new)>(s: Subject<V>, req: Requirement, crateName: string, inp: Inputs, alnum: CharClass)
    requires Claims(req, KaniInputs(crateName, inp), alnum).Ok?
  {
    KaniHolds(s, crateName, KaniBody(Claims(req, KaniInputs(crateName, inp), alnum).value), [map[]])
  }

  ghost predicate CreusotSays<V(!new)>(s: Subject<V>, req: Requirement, inp: Inputs, alnum: CharClass)
    requires Claims(req, CreusotInputs(inp), alnum).Ok?
  {
    CreusotHolds(s, Map(Claims(req, CreusotInputs(inp), alnum).value, CreusotAssertion))
  }

  /** Kani's body asserts the closures of the properties its run reaches, one block after another. */
  lemma KaniAssertsReached<V(!new)>(
    s: Subject<V>, req: Requirement, crateName: string, inp: Inputs, alnum: CharClass)
    requires Claims(req, CreusotInputs(inp), alnum).Ok? && SignaturesRead(s, req, inp, alnum)
    ensures AllInvariant(req) && Claims(req, KaniInputs(crateName, inp), alnum).Ok?
    ensures KaniSays(s, req, crateName, inp, alnum) <==> ReachedHold(s, req, req.require, inp, alnum)
  {
    var at := KaniInputs(crateName, inp);
    HarnessesExistTogether(req, crateName, inp, alnum);
    forall p | p in req.require ensures IsInvariant(p.pattern) && ClosureRead(s, req, p, at, alnum) {
      ClosureAnyPrefix(s, req, p, inp, crateName, alnum);
    }
    KaniBodyHolds(s, req, req.require, at, alnum);
    HoldInOrderMeans(s, req, req.require, at, alnum);
    ReachedHoldAnyPrefix(s, req, req.require, inp, crateName, alnum);
  }

  /** Some closure fails, and each that fails stands behind a property nothing can be assigned to. */
  ghost predicate FailsUnreached<V(!new)>(s: Subject<V>, req: Requirement, inp: Inputs, alnum: CharClass)
    requires AllInvariant(req)
  {
    && (exists p <- req.require :: !ClosureHolds(s, req, p, inp, alnum))
    && forall i: nat :: i < |req.require| && !ClosureHolds(s, req, req.require[i], inp, alnum) ==>
         exists j :: 0 <= j < i && !HasAssignment(s, req, req.require[j], inp, alnum)
  }

  /**
   The Creusot harness denotes the requirement's closed formula, and whenever it holds the Kani harness
   does. The two differ exactly when some property is false and every false one stands behind one that
   ranges over nothing: Kani's blocks run one after another, and the run ends there.
   */
  lemma HarnessesAgreeExactly<V(!new)>(
    s: Subject<V>, req: Requirement, crateName: string, inp: Inputs, alnum: CharClass)
    requires Claims(req, CreusotInputs(inp), alnum).Ok? && SignaturesRead(s, req, inp, alnum)
    ensures AllInvariant(req) && Claims(req, KaniInputs(crateName, inp), alnum).Ok?
    ensures CreusotSays(s, req, inp, alnum) <==> RequirementHolds(s, req, inp, alnum)
    ensures CreusotSays(s, req, inp, alnum) ==> KaniSays(s, req, crateName, inp, alnum)
    ensures KaniSays(s, req, crateName, inp, alnum) && !CreusotSays(s, req, inp, alnum) <==>
            FailsUnreached(s, req, inp, alnum)
  {
    CreusotAssertsRequirement(s, req, inp, alnum);
    KaniAssertsReached(s, req, crateName, inp, alnum);
    HoldsReaches(s, req, inp, alnum);
  }

  /** A requirement that holds holds where it is reached; one that only holds there fails unreached. */
  lemma HoldsReaches<V(!new)>(s: Subject<V>, req: Requirement, inp: Inputs, alnum: CharClass)
    requires AllInvariant(req)
    ensures RequirementHolds(s, req, inp, alnum) ==> ReachedHold(s, req, req.require, inp, alnum)
    ensures ReachedHold(s, req, req.require, inp, alnum) && !RequirementHolds(s, req, inp, alnum) <==>
            FailsUnreached(s, req, inp, alnum)
  {
    forall i: nat | i < |req.require|
      ensures !Reached(s, req, req.require, inp, alnum, i) <==>
              exists j :: 0 <= j < i && !HasAssignment(s, req, req.require[j], inp, alnum)
    {
    }
  }

  /** With something to assign to every property, both harnesses denote the same closed formula. */
  lemma HarnessesAgree<V(!new)>(s: Subject<V>, req: Requirement, crateName: string, inp: Inputs, alnum: CharClass)
    requires Claims(req, CreusotInputs(inp), alnum).Ok? && SignaturesRead(s, req, inp, alnum)
    requires forall p <- req.require :: HasAssignment(s, req, p, inp, alnum)
    ensures AllInvariant(req) && Claims(req, KaniInputs(crateName, inp), alnum).Ok?
    ensures KaniSays(s, req, crateName, inp, alnum) <==> RequirementHolds(s, req, inp, alnum)
    ensures CreusotSays(s, req, inp, alnum) <==> RequirementHolds(s, req, inp, alnum)
  {
    HarnessesAgreeExactly(s, req, crateName, inp, alnum);
    forall j | 0 <= j < |req.require| ensures HasAssignment(s, req, req.require[j], inp, alnum) {
      assert req.require[j] in req.require;
    }
    assert !FailsUnreached(s, req, inp, alnum) by {
      if p :| p in req.require && !ClosureHolds(s, req, p, inp, alnum) {
        var i: nat :| i < |req.require| && req.require[i] == p;
        assert !ClosureHolds(s, req, req.require[i], inp, alnum);
      }
    }
  }
}
