/**
 The grammar of the boolean text a lowering emits, its expression trees, and a reader for it.
 The reader is the independent account of what the emitted tokens say.
 */
module HarnessText {
  import opened Basics
  import opened Lowering

  datatype Arg = Arg(byRef: bool, name: string)

  datatype Tree =
    | Variable(name: string)
    | Negation(inner: Tree)
    | Conjunction(left: Tree, right: Tree)
    | Disjunction(left: Tree, right: Tree)
    | PathCall(path: seq<string>, args: seq<Arg>)
    | MethodCall(receiver: string, name: string, args: seq<Arg>)
    | TraitCall(ty: seq<string>, tr: seq<string>, name: string, args: seq<Arg>)
    | VariantMatch(fn: seq<string>, args: seq<Arg>, enum: seq<string>, variant: string)

  predicate WellFormed(t: Tree) {
    match t
    case Variable(_) => true
    case Negation(e) => WellFormed(e)
    case Conjunction(l, r) => WellFormed(l) && WellFormed(r)
    case Disjunction(l, r) => WellFormed(l) && WellFormed(r)
    case PathCall(path, _) => path != []
    case MethodCall(_, _, _) => true
    case TraitCall(ty, tr, _, _) => ty != [] && tr != []
    case VariantMatch(fn, _, en, _) => fn != [] && en != []
  }

  // ----- Printing -----

  function PrintArg(a: Arg): seq<Token> {
    if a.byRef then [Amp, Id(a.name)] else [Id(a.name)]
  }

  function PrintArgs(args: seq<Arg>): seq<Token> {
    if args == [] then []
    else if |args| == 1 then PrintArg(args[0])
    else PrintArg(args[0]) + [Comma] + PrintArgs(args[1..])
  }

  const MATCH_TAIL: seq<Token> :=
    [LBrace, DotDot, RBrace, FatArrow, KwTrue, Comma, Underscore, FatArrow, KwFalse, RBrace]

  function Print(t: Tree): (toks: seq<Token>)
    requires WellFormed(t)
    ensures toks != []
  {
    match t
    case Variable(v) => [Id(v)]
    case Negation(e) => [Bang, LParen] + Print(e) + [RParen]
    case Conjunction(l, r) => [LParen] + Print(l) + [AndAnd] + Print(r) + [RParen]
    case Disjunction(l, r) => [LParen] + Print(l) + [OrOr] + Print(r) + [RParen]
    case PathCall(path, args) => PathTokens(path) + [LParen] + PrintArgs(args) + [RParen]
    case MethodCall(recv, name, args) => [Id(recv)] + [Dot, Id(name), LParen] + PrintArgs(args) + [RParen]
    case TraitCall(ty, tr, name, args) =>
      [Lt] + PathTokens(ty) + [KwAs] + PathTokens(tr) + [Gt, PathSep, Id(name), LParen] + PrintArgs(args) + [RParen]
    case VariantMatch(fn, args, en, variant) =>
      [KwMatch] + PathTokens(fn) + [LParen] + PrintArgs(args) + [RParen, LBrace]
      + PathTokens(en + [variant]) + MATCH_TAIL
  }

  // ----- Reading -----

  function ReadPath(toks: seq<Token>): (r: Option<(seq<string>, seq<Token>)>)
    ensures r.Some? ==> r.value.0 != [] && |r.value.1| < |toks|
  {
    if toks == [] || !toks[0].Id? then None
    else if |toks| >= 2 && toks[1] == PathSep then
      match ReadPath(toks[2..])
      case None => None
      case Some((path, rest)) => Some(([toks[0].name] + path, rest))
    else Some(([toks[0].name], toks[1..]))
  }

  function ReadArg(toks: seq<Token>): (r: Option<(Arg, seq<Token>)>)
    ensures r.Some? ==> |r.value.1| < |toks|
  {
    if toks != [] && toks[0].Id? then Some((Arg(false, toks[0].name), toks[1..]))
    else if |toks| >= 2 && toks[0] == Amp && toks[1].Id? then Some((Arg(true, toks[1].name), toks[2..]))
    else None
  }

  /** An argument list up to and including its closing parenthesis. */
  function ReadArgs(toks: seq<Token>): (r: Option<(seq<Arg>, seq<Token>)>)
    ensures r.Some? ==> |r.value.1| < |toks|
  {
    if toks != [] && toks[0] == RParen then Some(([], toks[1..]))
    else ReadMoreArgs(toks)
  }

  function ReadMoreArgs(toks: seq<Token>): (r: Option<(seq<Arg>, seq<Token>)>)
    ensures r.Some? ==> |r.value.1| < |toks|
  {
    match ReadArg(toks)
    case None => None
    case Some((a, rest)) =>
      if rest != [] && rest[0] == RParen then Some(([a], rest[1..]))
      else if rest != [] && rest[0] == Comma then
        match ReadMoreArgs(rest[1..])
        case None => None
        case Some((more, after)) => Some(([a] + more, after))
      else None
  }

  function Expect(expected: seq<Token>, toks: seq<Token>): (r: Option<seq<Token>>)
    ensures r.Some? ==> toks == expected + r.value
  {
    if expected <= toks then Some(toks[|expected|..]) else None
  }

  function ReadTraitCall(toks: seq<Token>): (r: Option<(Tree, seq<Token>)>)
    ensures r.Some? ==> |r.value.1| < |toks|
  {
    match ReadPath(toks)
    case None => None
    case Some((ty, r1)) =>
      if r1 == [] || r1[0] != KwAs then None
      else
        match ReadPath(r1[1..])
        case None => None
        case Some((tr, r2)) =>
          if |r2| < 4 || r2[0] != Gt || r2[1] != PathSep || !r2[2].Id? || r2[3] != LParen then None
          else
            match ReadArgs(r2[4..])
            case None => None
            case Some((args, r3)) => Some((TraitCall(ty, tr, r2[2].name, args), r3))
  }

  function ReadMatch(toks: seq<Token>): (r: Option<(Tree, seq<Token>)>)
    ensures r.Some? ==> |r.value.1| < |toks|
  {
    match ReadPath(toks)
    case None => None
    case Some((fn, r1)) =>
      if r1 == [] || r1[0] != LParen then None
      else
        match ReadArgs(r1[1..])
        case None => None
        case Some((args, r2)) =>
          ReadVariant(fn, args, r2)
  }

  /** The rest of a variant test, from its opening brace on. */
  function ReadVariant(fn: seq<string>, args: seq<Arg>, toks: seq<Token>): (r: Option<(Tree, seq<Token>)>)
    ensures r.Some? ==> |r.value.1| < |toks|
  {
    if toks == [] || toks[0] != LBrace then None
    else
      match ReadPath(toks[1..])
      case None => None
      case Some((path, r3)) =>
        match Expect(MATCH_TAIL, r3)
        case None => None
        case Some(r4) => Some((VariantMatch(fn, args, path[..|path| - 1], path[|path| - 1]), r4))
  }

  function ReadName(toks: seq<Token>): (r: Option<(Tree, seq<Token>)>)
    requires toks != [] && toks[0].Id?
    ensures r.Some? ==> |r.value.1| < |toks|
  {
    if |toks| >= 4 && toks[1] == Dot && toks[2].Id? && toks[3] == LParen then
      match ReadArgs(toks[4..])
      case None => None
      case Some((args, rest)) => Some((MethodCall(toks[0].name, toks[2].name, args), rest))
    else
      match ReadPath(toks)
      case None => None
      case Some((path, rest)) =>
        if rest != [] && rest[0] == LParen then
          match ReadArgs(rest[1..])
          case None => None
          case Some((args, after)) => Some((PathCall(path, args), after))
        else if |path| == 1 then Some((Variable(path[0]), rest))
        else None
  }

  function Read(toks: seq<Token>): (r: Option<(Tree, seq<Token>)>)
    ensures r.Some? ==> |r.value.1| < |toks|
    decreases |toks|
  {
    if toks == [] then None
    else
      match toks[0]
      case Bang =>
        if |toks| < 2 || toks[1] != LParen then None
        else
          (match Read(toks[2..])
           case None => None
           case Some((e, rest)) =>
             if rest != [] && rest[0] == RParen then Some((Negation(e), rest[1..])) else None)
      case LParen =>
        (match Read(toks[1..])
         case None => None
         case Some((l, r1)) =>
           if r1 == [] || (r1[0] != AndAnd && r1[0] != OrOr) then None
           else
             match Read(r1[1..])
             case None => None
             case Some((r, r2)) =>
               if r2 == [] || r2[0] != RParen then None
               else Some((if r1[0] == AndAnd then Conjunction(l, r) else Disjunction(l, r), r2[1..])))
      case Lt => ReadTraitCall(toks[1..])
      case KwMatch => ReadMatch(toks[1..])
      case Id(_) => ReadName(toks)
      case _ => None
  }

  /** Reading a whole claim: nothing may be left over. */
  function ReadAll(toks: seq<Token>): Option<Tree> {
    match Read(toks)
    case None => None
    case Some((t, rest)) => if rest == [] then Some(t) else None
  }

  // ----- Printing in front of what follows -----

  // The same text, built right to left: each piece is put in front of the text after it, which is
  // the order the reader consumes it in.

  function PathBefore(path: seq<string>, rest: seq<Token>): seq<Token>
    requires path != []
  {
    if |path| == 1 then [Id(path[0])] + rest else [Id(path[0]), PathSep] + PathBefore(path[1..], rest)
  }

  function ArgBefore(a: Arg, rest: seq<Token>): seq<Token> {
    if a.byRef then [Amp, Id(a.name)] + rest else [Id(a.name)] + rest
  }

  function ArgsBefore(args: seq<Arg>, rest: seq<Token>): seq<Token> {
    if args == [] then rest
    else if |args| == 1 then ArgBefore(args[0], rest)
    else ArgBefore(args[0], [Comma] + ArgsBefore(args[1..], rest))
  }

  function TreeBefore(t: Tree, rest: seq<Token>): seq<Token>
    requires WellFormed(t)
  {
    match t
    case Variable(v) => [Id(v)] + rest
    case Negation(e) => [Bang, LParen] + TreeBefore(e, [RParen] + rest)
    case Conjunction(l, r) => [LParen] + TreeBefore(l, [AndAnd] + TreeBefore(r, [RParen] + rest))
    case Disjunction(l, r) => [LParen] + TreeBefore(l, [OrOr] + TreeBefore(r, [RParen] + rest))
    case PathCall(path, args) => PathBefore(path, [LParen] + ArgsBefore(args, [RParen] + rest))
    case MethodCall(recv, name, args) => [Id(recv), Dot, Id(name), LParen] + ArgsBefore(args, [RParen] + rest)
    case TraitCall(ty, tr, name, args) =>
      [Lt] + PathBefore(ty, [KwAs] + PathBefore(tr,
        [Gt, PathSep, Id(name), LParen] + ArgsBefore(args, [RParen] + rest)))
    case VariantMatch(fn, args, en, variant) =>
      [KwMatch] + PathBefore(fn, [LParen] + ArgsBefore(args,
        [RParen] + ([LBrace] + PathBefore(en + [variant], MATCH_TAIL + rest))))
  }

  lemma {:induction false} PathBeforeIs(path: seq<string>, rest: seq<Token>)
    requires path != []
    ensures PathBefore(path, rest) == PathTokens(path) + rest
  {
    if |path| > 1 {
      PathBeforeIs(path[1..], rest);
    }
  }

  lemma {:induction false} ArgsBeforeIs(args: seq<Arg>, rest: seq<Token>)
    ensures ArgsBefore(args, rest) == PrintArgs(args) + rest
  {
    if |args| > 1 {
      ArgsBeforeIs(args[1..], rest);
    }
  }

  lemma Regroup<T>(a: seq<T>, b: seq<T>, c: seq<T>, d: seq<T>)
    ensures a + b + c + d == a + (b + (c + d))
  {
  }

  lemma CallBeforeIs(path: seq<string>, args: seq<Arg>, rest: seq<Token>)
    requires path != []
    ensures TreeBefore(PathCall(path, args), rest) == Print(PathCall(path, args)) + rest
  {
    ArgsBeforeIs(args, [RParen] + rest);
    PathBeforeIs(path, [LParen] + ArgsBefore(args, [RParen] + rest));
    Regroup(PathTokens(path) + [LParen], PrintArgs(args), [RParen], rest);
    Regroup(PathTokens(path), [LParen], PrintArgs(args), [RParen] + rest);
  }

  lemma TraitCallBeforeIs(ty: seq<string>, tr: seq<string>, name: string, args: seq<Arg>, rest: seq<Token>)
    requires ty != [] && tr != []
    ensures TreeBefore(TraitCall(ty, tr, name, args), rest) == Print(TraitCall(ty, tr, name, args)) + rest
  {
    var open := [Gt, PathSep, Id(name), LParen];
    ArgsBeforeIs(args, [RParen] + rest);
    var call := open + ArgsBefore(args, [RParen] + rest);
    PathBeforeIs(tr, call);
    PathBeforeIs(ty, [KwAs] + PathBefore(tr, call));
    var front := [Lt] + PathTokens(ty) + [KwAs];
    Regroup(front + PathTokens(tr) + open, PrintArgs(args), [RParen], rest);
    Regroup(front, PathTokens(tr), open, PrintArgs(args) + ([RParen] + rest));
    Regroup([Lt], PathTokens(ty), [KwAs], PathTokens(tr) + call);
  }

  lemma MatchBeforeIs(fn: seq<string>, args: seq<Arg>, en: seq<string>, variant: string, rest: seq<Token>)
    requires fn != [] && en != []
    ensures TreeBefore(VariantMatch(fn, args, en, variant), rest) == Print(VariantMatch(fn, args, en, variant)) + rest
  {
    var path := PathTokens(en + [variant]);
    PathBeforeIs(en + [variant], MATCH_TAIL + rest);
    var body := [RParen] + ([LBrace] + PathBefore(en + [variant], MATCH_TAIL + rest));
    assert body == [RParen, LBrace] + (path + (MATCH_TAIL + rest));
    ArgsBeforeIs(args, body);
    PathBeforeIs(fn, [LParen] + ArgsBefore(args, body));
    var front := [KwMatch] + PathTokens(fn) + [LParen];
    Regroup(front + PrintArgs(args) + [RParen, LBrace], path, MATCH_TAIL, rest);
    Regroup(front, PrintArgs(args), [RParen, LBrace], path + (MATCH_TAIL + rest));
    Regroup([KwMatch], PathTokens(fn), [LParen], PrintArgs(args) + body);
  }

  lemma {:induction false} TreeBeforeIs(t: Tree, rest: seq<Token>)
    requires WellFormed(t)
    ensures TreeBefore(t, rest) == Print(t) + rest
  {
    match t {
      case Variable(v) =>
      case Negation(e) =>
        TreeBeforeIs(e, [RParen] + rest);
        assert [Bang, LParen] + Print(e) + [RParen] + rest == [Bang, LParen] + (Print(e) + ([RParen] + rest));
      case Conjunction(l, r) =>
        TreeBeforeIs(r, [RParen] + rest);
        TreeBeforeIs(l, [AndAnd] + TreeBefore(r, [RParen] + rest));
        InfixBeforeIs(l, r, AndAnd, rest);
      case Disjunction(l, r) =>
        TreeBeforeIs(r, [RParen] + rest);
        TreeBeforeIs(l, [OrOr] + TreeBefore(r, [RParen] + rest));
        InfixBeforeIs(l, r, OrOr, rest);
      case PathCall(path, args) => CallBeforeIs(path, args, rest);
      case MethodCall(recv, name, args) =>
        ArgsBeforeIs(args, [RParen] + rest);
        assert [Id(recv)] + [Dot, Id(name), LParen] == [Id(recv), Dot, Id(name), LParen];
        Regroup([Id(recv), Dot, Id(name), LParen], PrintArgs(args), [RParen], rest);
      case TraitCall(ty, tr, name, args) => TraitCallBeforeIs(ty, tr, name, args, rest);
      case VariantMatch(fn, args, en, variant) => MatchBeforeIs(fn, args, en, variant, rest);
    }
  }

  lemma InfixBeforeIs(l: Tree, r: Tree, op: Token, rest: seq<Token>)
    requires WellFormed(l) && WellFormed(r)
    requires var right := TreeBefore(r, [RParen] + rest);
             && TreeBefore(l, [op] + right) == Print(l) + ([op] + right)
             && right == Print(r) + ([RParen] + rest)
    ensures [LParen] + TreeBefore(l, [op] + TreeBefore(r, [RParen] + rest)) ==
            [LParen] + Print(l) + [op] + Print(r) + [RParen] + rest
  {
    Regroup([LParen] + Print(l) + [op], Print(r), [RParen], rest);
    Regroup([LParen], Print(l), [op], Print(r) + ([RParen] + rest));
  }

  // ----- Reading back what was printed -----

  lemma {:induction false} ReadPathPrinted(path: seq<string>, rest: seq<Token>)
    requires path != [] && (rest == [] || rest[0] != PathSep)
    ensures ReadPath(PathBefore(path, rest)) == Some((path, rest))
  {
    if |path| > 1 {
      ReadPathPrinted(path[1..], rest);
      assert [path[0]] + path[1..] == path;
    } else {
      assert [path[0]] == path;
    }
  }

  lemma ReadArgPrinted(a: Arg, rest: seq<Token>)
    ensures ReadArg(ArgBefore(a, rest)) == Some((a, rest))
  {
    assert ([Amp, Id(a.name)] + rest)[2..] == rest && ([Id(a.name)] + rest)[1..] == rest;
  }

  lemma ReadOneMore(a: Arg, more: seq<Arg>, after: seq<Token>, rest: seq<Token>)
    requires ReadMoreArgs(after) == Some((more, rest))
    ensures ReadMoreArgs(ArgBefore(a, [Comma] + after)) == Some(([a] + more, rest))
  {
    ReadArgPrinted(a, [Comma] + after);
    assert ([Comma] + after)[1..] == after;
  }

  lemma {:induction false} ReadMoreArgsPrinted(args: seq<Arg>, rest: seq<Token>)
    requires args != []
    ensures ReadMoreArgs(ArgsBefore(args, [RParen] + rest)) == Some((args, rest))
  {
    if |args| == 1 {
      ReadArgPrinted(args[0], [RParen] + rest);
      assert ([RParen] + rest)[1..] == rest;
      assert args == [args[0]];
    } else {
      ReadMoreArgsPrinted(args[1..], rest);
      ReadOneMore(args[0], args[1..], ArgsBefore(args[1..], [RParen] + rest), rest);
      assert [args[0]] + args[1..] == args;
    }
  }

  lemma ReadArgsPrinted(args: seq<Arg>, rest: seq<Token>)
    ensures ReadArgs(ArgsBefore(args, [RParen] + rest)) == Some((args, rest))
  {
    if args != [] {
      ReadMoreArgsPrinted(args, rest);
      assert ArgsBefore(args, [RParen] + rest)[0] != RParen;
    }
  }

  /** What may follow a subexpression in emitted text. */
  predicate Follows(rest: seq<Token>) {
    rest == [] || rest[0] == RParen || rest[0] == AndAnd || rest[0] == OrOr
  }

  lemma ReadTraitCallPrinted(ty: seq<string>, tr: seq<string>, name: string, args: seq<Arg>, rest: seq<Token>)
    requires ty != [] && tr != []
    ensures var call := [Gt, PathSep, Id(name), LParen] + ArgsBefore(args, [RParen] + rest);
            ReadTraitCall(PathBefore(ty, [KwAs] + PathBefore(tr, call))) == Some((TraitCall(ty, tr, name, args), rest))
  {
    var after := ArgsBefore(args, [RParen] + rest);
    ReadArgsPrinted(args, rest);
    var call := [Gt, PathSep, Id(name), LParen] + after;
    assert call[4..] == after;
    var tail := PathBefore(tr, call);
    ReadPathPrinted(tr, call);
    var r1 := [KwAs] + tail;
    assert r1[1..] == tail;
    ReadPathPrinted(ty, r1);
  }

  lemma ReadVariantPrinted(fn: seq<string>, args: seq<Arg>, en: seq<string>, variant: string, rest: seq<Token>)
    requires en != []
    ensures ReadVariant(fn, args, [LBrace] + PathBefore(en + [variant], MATCH_TAIL + rest))
            == Some((VariantMatch(fn, args, en, variant), rest))
  {
    var tail := MATCH_TAIL + rest;
    assert tail[|MATCH_TAIL|..] == rest && MATCH_TAIL <= tail;
    var path := PathBefore(en + [variant], tail);
    ReadPathPrinted(en + [variant], tail);
    assert ([LBrace] + path)[1..] == path;
    assert (en + [variant])[..|en|] == en;
  }

  lemma ReadMatchPrinted(fn: seq<string>, args: seq<Arg>, en: seq<string>, variant: string, rest: seq<Token>)
    requires fn != [] && en != []
    ensures var body := [LBrace] + PathBefore(en + [variant], MATCH_TAIL + rest);
            ReadMatch(PathBefore(fn, [LParen] + ArgsBefore(args, [RParen] + body)))
            == Some((VariantMatch(fn, args, en, variant), rest))
  {
    var body := [LBrace] + PathBefore(en + [variant], MATCH_TAIL + rest);
    ReadVariantPrinted(fn, args, en, variant, rest);
    var after := ArgsBefore(args, [RParen] + body);
    ReadArgsPrinted(args, body);
    var r1 := [LParen] + after;
    assert r1[1..] == after;
    ReadPathPrinted(fn, r1);
  }

  lemma ReadCallPrinted(path: seq<string>, args: seq<Arg>, rest: seq<Token>)
    requires path != []
    ensures Read(TreeBefore(PathCall(path, args), rest)) == Some((PathCall(path, args), rest))
  {
    var after := ArgsBefore(args, [RParen] + rest);
    ReadPathPrinted(path, [LParen] + after);
    assert ([LParen] + after)[1..] == after;
    ReadArgsPrinted(args, rest);
    assert TreeBefore(PathCall(path, args), rest)[1] != Dot;
  }

  lemma ReadMethodPrinted(recv: string, name: string, args: seq<Arg>, rest: seq<Token>)
    ensures Read(TreeBefore(MethodCall(recv, name, args), rest)) == Some((MethodCall(recv, name, args), rest))
  {
    var after := ArgsBefore(args, [RParen] + rest);
    assert TreeBefore(MethodCall(recv, name, args), rest)[4..] == after;
    ReadArgsPrinted(args, rest);
  }

  lemma {:induction false} ReadBefore(t: Tree, rest: seq<Token>)
    requires WellFormed(t) && Follows(rest)
    ensures Read(TreeBefore(t, rest)) == Some((t, rest))
  {
    match t {
      case Variable(v) =>
        assert ReadPath([Id(v)] + rest) == Some(([v], rest));
      case Negation(e) =>
        ReadBefore(e, [RParen] + rest);
        ReadNegation(e, TreeBefore(e, [RParen] + rest), rest);
      case Conjunction(l, r) =>
        var right := TreeBefore(r, [RParen] + rest);
        ReadBefore(r, [RParen] + rest);
        ReadBefore(l, [AndAnd] + right);
        ReadInfix(l, r, AndAnd, TreeBefore(l, [AndAnd] + right), right, rest);
      case Disjunction(l, r) =>
        var right := TreeBefore(r, [RParen] + rest);
        ReadBefore(r, [RParen] + rest);
        ReadBefore(l, [OrOr] + right);
        ReadInfix(l, r, OrOr, TreeBefore(l, [OrOr] + right), right, rest);
      case PathCall(path, args) => ReadCallPrinted(path, args, rest);
      case MethodCall(recv, name, args) => ReadMethodPrinted(recv, name, args, rest);
      case TraitCall(ty, tr, name, args) =>
        ReadTraitCallPrinted(ty, tr, name, args, rest);
        ReadKeyword(Lt, TreeBefore(t, rest)[1..]);
      case VariantMatch(fn, args, en, variant) =>
        ReadMatchPrinted(fn, args, en, variant, rest);
        ReadKeyword(KwMatch, TreeBefore(t, rest)[1..]);
    }
  }

  lemma ReadKeyword(key: Token, toks: seq<Token>)
    requires key == Lt || key == KwMatch
    ensures Read([key] + toks) == if key == Lt then ReadTraitCall(toks) else ReadMatch(toks)
  {
    assert ([key] + toks)[1..] == toks;
  }

  lemma ReadNegation(e: Tree, inside: seq<Token>, rest: seq<Token>)
    requires Read(inside) == Some((e, [RParen] + rest))
    ensures Read([Bang, LParen] + inside) == Some((Negation(e), rest))
  {
    assert ([Bang, LParen] + inside)[2..] == inside;
    assert ([RParen] + rest)[1..] == rest;
  }

  lemma ReadInfix(l: Tree, r: Tree, op: Token, inside: seq<Token>, right: seq<Token>, rest: seq<Token>)
    requires op == AndAnd || op == OrOr
    requires Read(inside) == Some((l, [op] + right)) && Read(right) == Some((r, [RParen] + rest))
    ensures Read([LParen] + inside) == Some((if op == AndAnd then Conjunction(l, r) else Disjunction(l, r), rest))
  {
    assert ([LParen] + inside)[1..] == inside;
    assert ([op] + right)[1..] == right;
    assert ([RParen] + rest)[1..] == rest;
  }

  /** The emitted text is unambiguous: however trees nest, the reader returns the tree that was printed. */
  lemma ReadPrinted(t: Tree)
    requires WellFormed(t)
    ensures ReadAll(Print(t)) == Some(t)
  {
    TreeBeforeIs(t, []);
    ReadBefore(t, []);
    assert Print(t) + [] == Print(t);
  }

  /** Two trees that print to the same text are the same tree. */
  lemma PrintInjective(t: Tree, u: Tree)
    requires WellFormed(t) && WellFormed(u) && Print(t) == Print(u)
    ensures t == u
  {
    ReadPrinted(t);
    ReadPrinted(u);
  }
}
