/**
 Claim lowering (`src/lowering.rs`): a gated property becomes Rust boolean text plus typed binders,
 or is refused. Text is modelled as the sequence of its tokens; keywords are their own tokens.
 */
module Lowering {
  import opened Basics
  import opened Text
  import opened Prl
  import opened Adapter

  datatype Token =
    | Id(name: string)
    | Bang | LParen | RParen | AndAnd | OrOr | Amp | Dot | Comma | PathSep | Lt | Gt
    | KwAs | KwMatch | KwTrue | KwFalse | LBrace | RBrace | DotDot | FatArrow | Underscore

  /** The type of a quantified variable as the harness writes it. */
  datatype TypeText =
    | Bare(name: string)
    | PathType(path: seq<string>)
    | AppliedType(head: seq<string>, args: seq<TypeText>)

  datatype Quantified = Quantified(name: string, ty: TypeText)

  datatype LoweredClaim = LoweredClaim(claim: seq<Token>, quantified: seq<Quantified>)

  /** One constructor for each refusal the code words differently. */
  datatype Refusal =
    | UntypedCondition(name: string)
    | NotBool(name: string)
    | Scoped
    | NotAnInvariant
    | Guarded(name: string)
    | NotBound(name: string)
    | NotResolved(name: string)
    | WrongArity(name: string)
    | NotAVariable(name: string, arg: string)
    | NoReceiver(name: string)
    | Unreachable(name: string)
    | NoSort(name: string)
    | SortNotBound(sort: string)
    | SortNotResolved(sort: string)
    | ClaimsNothing

  /** The inputs the caller resolved before lowering; `prefix` is how the harness reaches the subject. */
  datatype Inputs = Inputs(
    prefix: string,
    bindings: seq<Binding>,
    resolutions: map<string, Resolution>,
    sorts: map<string, TypeResolution>)

  // ----- Collecting loops -----

  /** What a loop that has collected `done` returns once the rest of its input is dealt with. */
  function Onto<T>(done: seq<T>, rest: Result<seq<T>, Refusal>): Result<seq<T>, Refusal> {
    match rest
    case Err(e) => Err(e)
    case Ok(more) => Ok(done + more)
  }

  lemma OntoNothing<T>(rest: Result<seq<T>, Refusal>)
    ensures Onto([], rest) == rest
  {
    if rest.Ok? {
      assert [] + rest.value == rest.value;
    }
  }

  lemma OntoStep<T>(done: seq<T>, x: T, rest: Result<seq<T>, Refusal>)
    ensures Onto(done, Onto([x], rest)) == Onto(done + [x], rest)
  {
    if rest.Ok? {
      assert done + ([x] + rest.value) == done + [x] + rest.value;
    }
  }

  // ----- Item paths -----

  function ItemName(written: string): string {
    Trim(LastSegment(written))
  }

  function ItemPath(prefix: string, path: Option<seq<string>>, written: string): Result<seq<string>, Refusal> {
    match path
    case None => Err(Unreachable(ItemName(written)))
    case Some(segments) => Ok([prefix] + segments + [ItemName(written)])
  }

  lemma NoLaterSep(qualifier: string, item: string, i: nat)
    requires NoPathSep(item) && (item != "" ==> item[0] != ':') && i > |qualifier|
    ensures !MatchesAt(qualifier + "::" + item, i, "::")
  {
    var s, k := qualifier + "::" + item, |qualifier|;
    if i + 2 <= |s| {
      if i == k + 1 {
        assert s[i..i + 2][1] == s[i + 1] == item[0];
      } else {
        assert !MatchesAt(item, i - k - 2, "::");
        assert item[i - k - 2..i - k] == s[i..i + 2];
      }
    }
  }

  lemma LastSepEnds(s: string, k: nat)
    requires MatchesAt(s, k, "::") && forall i | k < i < |s| :: !MatchesAt(s, i, "::")
    ensures LastSegment(s) == s[k + 2..]
  {
    LastSegmentIs(s, |s|);
  }

  lemma NoSepStays(s: string)
    requires NoPathSep(s)
    ensures LastSegment(s) == s
  {
    LastSegmentIs(s, |s|);
  }

  /** A written qualifier is dropped: only what follows the last `::` names the item. */
  lemma QualifierIsDropped(qualifier: string, item: string)
    requires NoPathSep(item) && (item != "" ==> item[0] != ':')
    ensures ItemName(qualifier + "::" + item) == Trim(item) && ItemName(item) == Trim(item)
  {
    var s, k := qualifier + "::" + item, |qualifier|;
    NoSepStays(item);
    assert s[k..k + 2] == "::" && s[k + 2..] == item;
    forall i | k < i < |s| ensures !MatchesAt(s, i, "::") {
      NoLaterSep(qualifier, item, i);
    }
    LastSepEnds(s, k);
  }

  /** The head of an applied type is what stands before its first `<`. */
  lemma HeadIs(head: string, args: string)
    requires '<' !in head
    ensures HeadOf(head + "<" + args) == Trim(head) && HeadOf(head) == Trim(head)
  {
    UpToIs(head, args, '<');
  }

  lemma {:induction false} UpToIs(head: string, rest: string, c: char)
    requires c !in head
    ensures UpTo(head + [c] + rest, c) == head && UpTo(head, c) == head
  {
    if head != "" {
      UpToIs(head[1..], rest, c);
      assert head == [head[0]] + head[1..];
      assert (head + [c] + rest)[1..] == head[1..] + [c] + rest;
    } else {
      assert ([] + [c] + rest)[0] == c;
    }
  }

  function PathTokens(path: seq<string>): (toks: seq<Token>)
    requires path != []
    ensures toks != [] && toks[0] == Id(path[0])
  {
    if |path| == 1 then [Id(path[0])] else [Id(path[0]), PathSep] + PathTokens(path[1..])
  }

  // ----- Sorts -----

  function HeadOf(written: string): string {
    Trim(UpTo(written, '<'))
  }

  function UpTo(s: string, c: char): string {
    if s == "" || s[0] == c then "" else [s[0]] + UpTo(s[1..], c)
  }

  function ArgType(prefix: string, arg: (string, ArgResolution)): Result<TypeText, Refusal> {
    match arg.1
    case PrimitiveArg(name) => Ok(Bare(name))
    case DeclaredArg(at) =>
      match ItemPath(prefix, at.path, arg.0)
      case Err(e) => Err(e)
      case Ok(path) => Ok(PathType(path))
  }

  /** The types of an applied sort's arguments, or the first refusal among them. */
  function ArgTypes(prefix: string, args: seq<(string, ArgResolution)>): Result<seq<TypeText>, Refusal> {
    if args == [] then Ok([])
    else
      match ArgType(prefix, args[0])
      case Err(e) => Err(e)
      case Ok(ty) => Onto([ty], ArgTypes(prefix, args[1..]))
  }

  /** `None` when the sort did not resolve to a type at all. */
  function SortText(resolution: Option<TypeResolution>, prefix: string, written: string)
    : Option<Result<TypeText, Refusal>>
  {
    match resolution
    case None => None
    case Some(NoType) => None
    case Some(Primitive(name)) => Some(Ok(Bare(name)))
    case Some(Declared(at)) =>
      (match ItemPath(prefix, at.path, written)
       case Err(e) => Some(Err(e))
       case Ok(path) => Some(Ok(PathType(path))))
    case Some(Applied(at, args)) =>
      match ItemPath(prefix, at.path, HeadOf(written))
      case Err(e) => Some(Err(e))
      case Ok(head) =>
        match ArgTypes(prefix, args)
        case Err(e) => Some(Err(e))
        case Ok(parts) => Some(Ok(AppliedType(head, parts)))
  }

  /** `resolved_type`: the loop that pushes one part per argument and leaves at the first refusal. */
  method ResolvedType(resolution: Option<TypeResolution>, prefix: string, written: string)
    returns (r: Option<Result<TypeText, Refusal>>)
    ensures r == SortText(resolution, prefix, written)
  {
    match resolution {
      case None => return None;
      case Some(NoType) => return None;
      case Some(Primitive(name)) => return Some(Ok(Bare(name)));
      case Some(Declared(at)) =>
        match ItemPath(prefix, at.path, written) {
          case Err(e) => return Some(Err(e));
          case Ok(path) => return Some(Ok(PathType(path)));
        }
      case Some(Applied(at, args)) =>
        var head := ItemPath(prefix, at.path, HeadOf(written));
        if head.Err? {
          return Some(Err(head.error));
        }
        var parts := [];
        OntoNothing(ArgTypes(prefix, args[0..]));
        for i := 0 to |args|
          invariant ArgTypes(prefix, args) == Onto(parts, ArgTypes(prefix, args[i..]))
        {
          var part := ArgType(prefix, args[i]);
          assert args[i..][1..] == args[i + 1..];
          if part.Err? {
            return Some(Err(part.error));
          }
          OntoStep(parts, part.value, ArgTypes(prefix, args[i + 1..]));
          parts := parts + [part.value];
        }
        assert parts + [] == parts;
        return Some(Ok(AppliedType(head.value, parts)));
    }
  }

  function Lookup<T>(m: map<string, T>, key: string): Option<T> {
    if key in m then Some(m[key]) else None
  }

  function SortType(b: Binder, inp: Inputs): Result<TypeText, Refusal> {
    match b.sort
    case None => Err(NoSort(b.name))
    case Some(sort) =>
      match FindBinding(inp.bindings, sort)
      case None => Err(SortNotBound(sort))
      case Some(i) =>
        match SortText(Lookup<TypeResolution>(inp.sorts, sort), inp.prefix, Trim(inp.bindings[i].observable))
        case None => Err(SortNotResolved(sort))
        case Some(r) => r
  }

  function Quantify(binders: seq<Binder>, inp: Inputs): Result<seq<Quantified>, Refusal> {
    if binders == [] then Ok([])
    else
      match SortType(binders[0], inp)
      case Err(e) => Err(e)
      case Ok(ty) => Onto([Quantified(binders[0].name, ty)], Quantify(binders[1..], inp))
  }

  // ----- Variables standing as conditions -----

  /** Why one atom cannot stand as the bare condition it is written as, if it cannot. */
  function ConditionProblem(a: Atom, binders: seq<Binder>, sorts: map<string, TypeResolution>): Option<Refusal> {
    if a.args != [] then None
    else
      match FindBinder(binders, a.name)
      case None => None
      case Some(i) =>
        match binders[i].sort
        case None => Some(UntypedCondition(a.name))
        case Some(sort) =>
          match Lookup<TypeResolution>(sorts, sort)
          case Some(Primitive(ty)) => if ty == "bool" then None else Some(NotBool(a.name))
          case Some(Declared(_)) => Some(NotBool(a.name))
          case Some(Applied(_, _)) => Some(NotBool(a.name))
          case Some(NoType) => None
          case None => None
  }

  function FirstConditionProblem(atoms: seq<Atom>, binders: seq<Binder>, sorts: map<string, TypeResolution>)
    : (r: Option<Refusal>)
    ensures r.None? <==> forall a :: a in atoms ==> ConditionProblem(a, binders, sorts).None?
  {
    if atoms == [] then None
    else
      assert forall a :: a in atoms <==> a == atoms[0] || a in atoms[1..];
      match ConditionProblem(atoms[0], binders, sorts)
      case Some(r) => Some(r)
      case None => FirstConditionProblem(atoms[1..], binders, sorts)
  }

  /** `non_boolean_condition`: a visitor that keeps the first refusal and ignores every later atom. */
  method NonBooleanCondition(prop: Property, binders: seq<Binder>, sorts: map<string, TypeResolution>)
    returns (refusal: Option<Refusal>)
    ensures refusal == FirstConditionProblem(PropertyAtoms(prop), binders, sorts)
  {
    refusal := None;
    var atoms := PropertyAtoms(prop);
    for i := 0 to |atoms|
      invariant FirstConditionProblem(atoms, binders, sorts) ==
                if refusal.Some? then refusal else FirstConditionProblem(atoms[i..], binders, sorts)
    {
      assert atoms[i..][0] == atoms[i] && atoms[i..][1..] == atoms[i + 1..];
      if refusal.None? {
        refusal := ConditionProblem(atoms[i], binders, sorts);
      }
    }
  }

  // ----- Calls -----

  function ArgTokens(mode: ParamMode, name: string): seq<Token> {
    match mode
    case ByRef => [Amp, Id(name)]
    case ByValue => [Id(name)]
  }

  function JoinArgs(args: seq<seq<Token>>): seq<Token> {
    if args == [] then []
    else if |args| == 1 then args[0]
    else args[0] + [Comma] + JoinArgs(args[1..])
  }

  function StripAmp(arg: seq<Token>): seq<Token> {
    if arg != [] && arg[0] == Amp then arg[1..] else arg
  }

  /** The argument texts, or the first term that is not a variable the claim ranges over. */
  function LowerArgs(name: string, args: seq<string>, params: seq<ParamMode>, binders: seq<Binder>)
    : Result<seq<seq<Token>>, Refusal>
    requires |args| == |params|
  {
    if args == [] then Ok([])
    else if !Binds(binders, Trim(args[0])) then Err(NotAVariable(name, Trim(args[0])))
    else Onto([ArgTokens(params[0], Trim(args[0]))], LowerArgs(name, args[1..], params[1..], binders))
  }

  function ArgTexts(args: seq<string>, params: seq<ParamMode>): (texts: seq<seq<Token>>)
    requires |args| == |params|
    ensures |texts| == |args|
  {
    if args == [] then [] else [ArgTokens(params[0], Trim(args[0]))] + ArgTexts(args[1..], params[1..])
  }

  lemma {:induction false} LowerArgsSucceeds(
    name: string, args: seq<string>, params: seq<ParamMode>, binders: seq<Binder>)
    requires |args| == |params|
    ensures LowerArgs(name, args, params, binders).Ok? <==> forall a :: a in args ==> Binds(binders, Trim(a))
    ensures var r := LowerArgs(name, args, params, binders); r.Ok? ==> r.value == ArgTexts(args, params)
  {
    if args != [] {
      LowerArgsSucceeds(name, args[1..], params[1..], binders);
      assert forall a :: a in args <==> a == args[0] || a in args[1..];
    }
  }

  function LowerCall(form: PredicateForm, observable: string, args: seq<seq<Token>>, prefix: string, at: CodeMatch)
    : Result<seq<Token>, Refusal>
  {
    match form
    case Function =>
      (match ItemPath(prefix, at.path, observable)
       case Err(e) => Err(e)
       case Ok(path) => Ok(PathTokens(path) + [LParen] + JoinArgs(args) + [RParen]))
    case Method(name, viaTrait) =>
      if args == [] then Err(NoReceiver(name))
      else (
        match viaTrait
        case None =>
          Ok(StripAmp(args[0]) + [Dot, Id(name), LParen] + JoinArgs(args[1..]) + [RParen])
        case Some(q) =>
          match ItemPath(prefix, q.typePath, q.typeName)
          case Err(e) => Err(e)
          case Ok(ty) =>
            match ItemPath(prefix, q.traitPath, q.traitName)
            case Err(e) => Err(e)
            case Ok(tr) =>
              Ok([Lt] + PathTokens(ty) + [KwAs] + PathTokens(tr) + [Gt, PathSep, Id(name), LParen]
                 + JoinArgs(args) + [RParen]))
    case VariantTest(name, enumName, variant, enumPath) =>
      match ItemPath(prefix, at.path, name)
      case Err(e) => Err(e)
      case Ok(fn) =>
        match ItemPath(prefix, enumPath, enumName)
        case Err(e) => Err(e)
        case Ok(en) =>
          Ok([KwMatch] + PathTokens(fn) + [LParen] + JoinArgs(args) + [RParen, LBrace]
             + PathTokens(en + [variant])
             + [LBrace, DotDot, RBrace, FatArrow, KwTrue, Comma, Underscore, FatArrow, KwFalse, RBrace])
  }

  function AtomText(a: Atom, binders: seq<Binder>, inp: Inputs): Result<seq<Token>, Refusal> {
    if a.guard.Some? then Err(Guarded(a.name))
    else if a.args == [] && Binds(binders, a.name) then Ok([Id(a.name)])
    else
      match FindBinding(inp.bindings, a.name)
      case None => Err(NotBound(a.name))
      case Some(i) =>
        match Lookup<Resolution>(inp.resolutions, a.name)
        case None => Err(NotResolved(a.name))
        case Some(Unresolved) => Err(NotResolved(a.name))
        case Some(Resolved(at, params, form)) =>
          if |params| != |a.args| then Err(WrongArity(a.name))
          else
            match LowerArgs(a.name, a.args, params, binders)
            case Err(e) => Err(e)
            case Ok(args) => LowerCall(form, inp.bindings[i].observable, args, inp.prefix, at)
  }

  /** The argument loop of `lower_atom`, which leaves at the first term that is not a variable. */
  method LowerArguments(name: string, args: seq<string>, params: seq<ParamMode>, binders: seq<Binder>)
    returns (r: Result<seq<seq<Token>>, Refusal>)
    requires |args| == |params|
    ensures r == LowerArgs(name, args, params, binders)
  {
    var texts := [];
    OntoNothing(LowerArgs(name, args[0..], params[0..], binders));
    assert args[0..] == args && params[0..] == params;
    for i := 0 to |args|
      invariant LowerArgs(name, args, params, binders) ==
                Onto(texts, LowerArgs(name, args[i..], params[i..], binders))
    {
      var arg := Trim(args[i]);
      assert args[i..][1..] == args[i + 1..] && params[i..][1..] == params[i + 1..];
      if !Binds(binders, arg) {
        return Err(NotAVariable(name, arg));
      }
      OntoStep(texts, ArgTokens(params[i], arg), LowerArgs(name, args[i + 1..], params[i + 1..], binders));
      texts := texts + [ArgTokens(params[i], arg)];
    }
    assert texts + [] == texts;
    r := Ok(texts);
  }

  function ExprText(e: Expr, binders: seq<Binder>, inp: Inputs): Result<seq<Token>, Refusal> {
    match e
    case Apply(a) => AtomText(a, binders, inp)
    case Not(inner) =>
      (match ExprText(inner, binders, inp)
       case Err(x) => Err(x)
       case Ok(t) => Ok([Bang, LParen] + t + [RParen]))
    case And(l, r) => Infix(ExprText(l, binders, inp), AndAnd, ExprText(r, binders, inp))
    case Or(l, r) => Infix(ExprText(l, binders, inp), OrOr, ExprText(r, binders, inp))
  }

  function Infix(l: Result<seq<Token>, Refusal>, op: Token, r: Result<seq<Token>, Refusal>)
    : Result<seq<Token>, Refusal>
  {
    match l
    case Err(x) => Err(x)
    case Ok(lt) =>
      match r
      case Err(x) => Err(x)
      case Ok(rt) => Ok([LParen] + lt + [op] + rt + [RParen])
  }

  function PatternText(p: Pattern, binders: seq<Binder>, inp: Inputs): Result<seq<Token>, Refusal> {
    match p
    case Always(e) => ExprText(e, binders, inp)
    case Never(e) =>
      (match ExprText(e, binders, inp)
       case Err(x) => Err(x)
       case Ok(t) => Ok([Bang, LParen] + t + [RParen]))
    case _ => Err(NotAnInvariant)
  }

  function LowerProperty(req: Requirement, prop: Property, inp: Inputs, alnum: CharClass)
    : Result<LoweredClaim, Refusal>
  {
    var binders := Binders(req, prop, alnum);
    match FirstConditionProblem(PropertyAtoms(prop), binders, inp.sorts)
    case Some(refusal) => Err(refusal)
    case None =>
      if prop.scope != Globally then Err(Scoped)
      else
        match PatternText(prop.pattern, binders, inp)
        case Err(e) => Err(e)
        case Ok(claim) =>
          match Quantify(binders, inp)
          case Err(e) => Err(e)
          case Ok(quantified) => Ok(LoweredClaim(claim, quantified))
  }
}
