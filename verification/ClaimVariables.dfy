/**
 The variables of a claim, said of the requirement as it is written (`src/prl/ast.rs`): which names are
 bound, over which sort, and in which order. Nothing here speaks of how they are collected.
 */
module ClaimVariables {
  import opened Basics
  import opened Text
  import opened Prl

  // ----- Every atom of a property is visited -----

  predicate Occurs(e: Expr, a: Atom) {
    match e
    case Apply(b) => a == b
    case Not(inner) => Occurs(inner, a)
    case And(l, r) => Occurs(l, a) || Occurs(r, a)
    case Or(l, r) => Occurs(l, a) || Occurs(r, a)
  }

  lemma {:induction false} ExprAtomsAre(e: Expr, a: Atom)
    ensures a in ExprAtoms(e) <==> Occurs(e, a)
  {
    match e {
      case Apply(_) =>
      case Not(inner) => ExprAtomsAre(inner, a);
      case And(l, r) =>
        ExprAtomsAre(l, a);
        ExprAtomsAre(r, a);
      case Or(l, r) =>
        ExprAtomsAre(l, a);
        ExprAtomsAre(r, a);
    }
  }

  predicate OccursInPattern(p: Pattern, a: Atom) {
    match p
    case Never(e) => Occurs(e, a)
    case Always(e) => Occurs(e, a)
    case Eventually(e) => Occurs(e, a)
    case LeadsTo(from, to, _) => Occurs(from, a) || Occurs(to, a)
    case Precedes(first, next) => Occurs(first, a) || Occurs(next, a)
    case OccursAtMost(event, _) => Occurs(event, a)
    case CanReach(e) => Occurs(e, a)
  }

  predicate OnBoundary(s: Scope, a: Atom) {
    match s
    case Globally => false
    case Before(until) => a == until
    case After(since) => a == since
    case Between(since, until) => a == since || a == until
  }

  /** The operands of the pattern and the boundaries of the scope, and nothing else. */
  lemma AtomsVisited(p: Property, a: Atom)
    ensures a in PropertyAtoms(p) <==> OccursInPattern(p.pattern, a) || OnBoundary(p.scope, a)
  {
    match p.pattern {
      case LeadsTo(from, to, _) =>
        ExprAtomsAre(from, a);
        ExprAtomsAre(to, a);
      case Precedes(first, next) =>
        ExprAtomsAre(first, a);
        ExprAtomsAre(next, a);
      case OccursAtMost(event, _) => ExprAtomsAre(event, a);
      case _ => ExprAtomsAre(p.pattern.claim, a);
    }
  }

  // ----- What a requirement says of a name -----

  predicate IsPredicate(d: Decl, name: string) {
    (d.Event? || d.State?) && d.name == name
  }

  /** `vocabulary[k]` is what an application of `name` refers to: the first event or state so called. */
  ghost predicate Declares(vocabulary: seq<Decl>, name: string, k: nat) {
    k < |vocabulary| && IsPredicate(vocabulary[k], name) && forall j :: 0 <= j < k ==> !IsPredicate(vocabulary[j], name)
  }

  /** The declaration of `name` gives parameter `i` the sort `sort`. */
  ghost predicate ParamHasSort(vocabulary: seq<Decl>, name: string, i: nat, sort: string) {
    exists k: nat ::
      Declares(vocabulary, name, k) && i < |vocabulary[k].params| && Trim(vocabulary[k].params[i].ty) == sort != ""
  }

  /** A term a claim can range over: an identifier that is no literal. */
  predicate IsPlainName(term: string, alnum: CharClass) {
    && term !in ["", "true", "false"]
    && term[0] !in "0123456789"
    && forall i :: 0 <= i < |term| ==> alnum(term[i]) || term[i] == '_'
  }

  /** Argument `i` of atom `k` is the variable `name`. */
  ghost predicate UsedAt(atoms: seq<Atom>, k: nat, i: nat, name: string) {
    k < |atoms| && i < |atoms[k].args| && Trim(atoms[k].args[i]) == name
  }

  ghost predicate Used(atoms: seq<Atom>, name: string) {
    exists k: nat, i: nat :: UsedAt(atoms, k, i, name)
  }

  /** Every use of `name` is where a parameter of sort `sort` is declared. */
  ghost predicate UsedOnlyAs(vocabulary: seq<Decl>, atoms: seq<Atom>, name: string, sort: string) {
    forall k: nat, i: nat :: UsedAt(atoms, k, i, name) ==> ParamHasSort(vocabulary, atoms[k].name, i, sort)
  }

  ghost predicate IsBound(binders: seq<Binder>, name: string) {
    exists b :: b in binders && b.name == name
  }

  // ----- Declarations -----

  lemma {:induction false} DeclaredParamsAre(vocabulary: seq<Decl>, name: string) returns (k: nat)
    ensures DeclaredParams(vocabulary, name).Some? ==>
              Declares(vocabulary, name, k) && DeclaredParams(vocabulary, name).value == vocabulary[k].params
    ensures DeclaredParams(vocabulary, name).None? ==> forall d <- vocabulary :: !IsPredicate(d, name)
  {
    k := 0;
    if vocabulary != [] && !IsPredicate(vocabulary[0], name) {
      k := DeclaredParamsAre(vocabulary[1..], name);
      k := k + 1;
    }
  }

  lemma DeclaredSortIs(vocabulary: seq<Decl>, name: string, i: nat, sort: string)
    ensures DeclaredSort(DeclaredParams(vocabulary, name), i) == Some(sort) <==>
            ParamHasSort(vocabulary, name, i, sort)
  {
    var k := DeclaredParamsAre(vocabulary, name);
    forall j: nat | Declares(vocabulary, name, j) ensures DeclaredParams(vocabulary, name).Some? && j == k {
      assert vocabulary[j] in vocabulary;
    }
  }

  lemma PlainNameIs(term: string, alnum: CharClass)
    ensures IsVariable(term, alnum) <==> IsPlainName(term, alnum)
  {
    assert forall i :: 0 <= i < |term| ==> term[i] in term;
  }

  // ----- Uses -----

  ghost predicate ArgumentUse(declared: Option<seq<Param>>, args: seq<string>, j: nat, u: Use) {
    j < |args| && Trim(args[j]) == u.name && u.sort == DeclaredSort(declared, j)
  }

  lemma FirstArgumentUse(declared: Option<seq<Param>>, args: seq<string>, i: nat, alnum: CharClass, u: Use)
    requires i < |args|
    ensures u in UsesOfAtom(declared, args, i, alnum) <==>
              || (IsVariable(u.name, alnum) && ArgumentUse(declared, args, i, u))
              || u in UsesOfAtom(declared, args, i + 1, alnum)
  {
    var v := Trim(args[i]);
    var rest := UsesOfAtom(declared, args, i + 1, alnum);
    if IsVariable(v, alnum) {
      assert UsesOfAtom(declared, args, i, alnum) == [Use(v, DeclaredSort(declared, i))] + rest;
    }
  }

  ghost predicate UsedFrom(declared: Option<seq<Param>>, args: seq<string>, i: nat, u: Use) {
    exists j: nat :: i <= j && ArgumentUse(declared, args, j, u)
  }

  lemma UsedFromNext(declared: Option<seq<Param>>, args: seq<string>, i: nat, u: Use)
    ensures UsedFrom(declared, args, i, u) <==> ArgumentUse(declared, args, i, u) || UsedFrom(declared, args, i + 1, u)
  {
  }

  lemma {:induction false} AtomUses(declared: Option<seq<Param>>, args: seq<string>, i: nat, alnum: CharClass, u: Use)
    requires i <= |args|
    ensures u in UsesOfAtom(declared, args, i, alnum) <==>
            IsVariable(u.name, alnum) && UsedFrom(declared, args, i, u)
    decreases |args| - i
  {
    if i < |args| {
      FirstArgumentUse(declared, args, i, alnum, u);
      UsedFromNext(declared, args, i, u);
      AtomUses(declared, args, i + 1, alnum, u);
    }
  }

  ghost predicate UseAt(vocabulary: seq<Decl>, atoms: seq<Atom>, k: nat, i: nat, u: Use) {
    UsedAt(atoms, k, i, u.name) && u.sort == DeclaredSort(DeclaredParams(vocabulary, atoms[k].name), i)
  }

  ghost predicate HasUse(vocabulary: seq<Decl>, atoms: seq<Atom>, u: Use) {
    exists k: nat, i: nat :: UseAt(vocabulary, atoms, k, i, u)
  }

  ghost predicate HasArgumentUse(vocabulary: seq<Decl>, a: Atom, u: Use) {
    exists j: nat :: ArgumentUse(DeclaredParams(vocabulary, a.name), a.args, j, u)
  }

  lemma HasUseFirst(vocabulary: seq<Decl>, atoms: seq<Atom>, u: Use)
    requires atoms != []
    ensures HasUse(vocabulary, atoms, u) <==>
            HasArgumentUse(vocabulary, atoms[0], u) || HasUse(vocabulary, atoms[1..], u)
  {
    if k: nat, i: nat :| UseAt(vocabulary, atoms, k, i, u) {
      assert if k == 0 then ArgumentUse(DeclaredParams(vocabulary, atoms[0].name), atoms[0].args, i, u)
             else UseAt(vocabulary, atoms[1..], k - 1, i, u);
    }
    if j: nat :| ArgumentUse(DeclaredParams(vocabulary, atoms[0].name), atoms[0].args, j, u) {
      assert UseAt(vocabulary, atoms, 0, j, u);
    }
    if k: nat, i: nat :| UseAt(vocabulary, atoms[1..], k, i, u) {
      assert UseAt(vocabulary, atoms, k + 1, i, u);
    }
  }

  lemma {:induction false} UsesAre(vocabulary: seq<Decl>, atoms: seq<Atom>, alnum: CharClass, u: Use)
    ensures u in Uses(vocabulary, atoms, alnum) <==> IsVariable(u.name, alnum) && HasUse(vocabulary, atoms, u)
  {
    if atoms != [] {
      var declared := DeclaredParams(vocabulary, atoms[0].name);
      AtomUses(declared, atoms[0].args, 0, alnum, u);
      UsesAre(vocabulary, atoms[1..], alnum, u);
      HasUseFirst(vocabulary, atoms, u);
      assert u in Uses(vocabulary, atoms, alnum) <==>
             u in UsesOfAtom(declared, atoms[0].args, 0, alnum) || u in Uses(vocabulary, atoms[1..], alnum);
    }
  }

  // ----- Which names are bound, and over what -----

  lemma UsedIs(vocabulary: seq<Decl>, atoms: seq<Atom>, alnum: CharClass, name: string)
    ensures (exists u :: u in Uses(vocabulary, atoms, alnum) && u.name == name) <==>
            IsPlainName(name, alnum) && Used(atoms, name)
  {
    PlainNameIs(name, alnum);
    if u :| u in Uses(vocabulary, atoms, alnum) && u.name == name {
      UsesAre(vocabulary, atoms, alnum, u);
      var k: nat, i: nat :| UseAt(vocabulary, atoms, k, i, u);
      assert UsedAt(atoms, k, i, name);
    }
    if k: nat, i: nat :| UsedAt(atoms, k, i, name) && IsPlainName(name, alnum) {
      var u := Use(name, DeclaredSort(DeclaredParams(vocabulary, atoms[k].name), i));
      assert UseAt(vocabulary, atoms, k, i, u);
      UsesAre(vocabulary, atoms, alnum, u);
    }
  }

  /** The written variable comes first, with the sort it was written with; every other one is implicit. */
  lemma WrittenLeads(req: Requirement, prop: Property, alnum: CharClass)
    ensures var binders := Binders(req, prop, alnum);
            match prop.quantifier
            case None => forall i :: 0 <= i < |binders| ==> !binders[i].explicit
            case Some(q) =>
              && |binders| > 0 && binders[0] == Binder(q.name, Some(q.sort), true)
              && forall i :: 1 <= i < |binders| ==> !binders[i].explicit
  {
    BindersContract(req, prop, alnum);
  }

  lemma BoundIs(start: seq<Binder>, binders: seq<Binder>, uses: seq<Use>, name: string)
    requires Reflects(start, binders, uses)
    ensures IsBound(binders, name) <==> IsBound(start, name) || exists u :: u in uses && u.name == name
  {
    if b :| b in binders && b.name == name {
      var i :| 0 <= i < |binders| && binders[i] == b;
      if i < |start| {
        assert start[i] == b && b in start;
      } else {
        assert SortReflects(b, uses);
      }
    }
    if b :| b in start && b.name == name {
      var i :| 0 <= i < |start| && start[i] == b;
      assert binders[i] == b;
    }
    if u :| u in uses && u.name == name {
      assert Binds(binders, name);
      assert binders[FindBinder(binders, name).value] in binders;
    }
  }

  /**
   A name is bound exactly when it is the written one or, in an invariant of the code fragment, some
   argument of the claim is that identifier.
   */
  lemma BoundExactly(req: Requirement, prop: Property, alnum: CharClass, name: string)
    ensures IsBound(Binders(req, prop, alnum), name) <==>
              || (prop.quantifier.Some? && prop.quantifier.value.name == name)
              || (&& (prop.pattern.Always? || prop.pattern.Never?)
                  && (req.category == [] || Code in req.category)
                  && IsPlainName(name, alnum) && Used(PropertyAtoms(prop), name))
  {
    BindersContract(req, prop, alnum);
    UsedIs(req.vocabulary, PropertyAtoms(prop), alnum, name);
    assert IsBound(Explicit(prop), name) <==> prop.quantifier.Some? && prop.quantifier.value.name == name by {
      if prop.quantifier.Some? { assert Explicit(prop)[0] in Explicit(prop); }
    }
    if ClosesOverFreeVariables(req, prop) {
      BoundIs(Explicit(prop), Binders(req, prop, alnum), Uses(req.vocabulary, PropertyAtoms(prop), alnum), name);
    }
  }

  lemma ImplicitReflects(req: Requirement, prop: Property, alnum: CharClass, b: Binder)
    requires b in Binders(req, prop, alnum) && !b.explicit
    ensures ClosesOverFreeVariables(req, prop)
    ensures SortReflects(b, Uses(req.vocabulary, PropertyAtoms(prop), alnum))
  {
    BindersContract(req, prop, alnum);
    var binders := Binders(req, prop, alnum);
    var i :| 0 <= i < |binders| && binders[i] == b;
    assert forall k | 0 <= k < |Explicit(prop)| :: binders[k].explicit;
  }

  /** An implicit variable ranges over a sort exactly when each of its uses is declared with that sort. */
  lemma SortExactly(req: Requirement, prop: Property, alnum: CharClass, b: Binder, sort: string)
    requires b in Binders(req, prop, alnum) && !b.explicit
    ensures b.sort == Some(sort) <==> UsedOnlyAs(req.vocabulary, PropertyAtoms(prop), b.name, sort)
  {
    var vocabulary, atoms := req.vocabulary, PropertyAtoms(prop);
    var uses := Uses(vocabulary, atoms, alnum);
    ImplicitReflects(req, prop, alnum, b);
    UsesAreVariables(vocabulary, atoms, alnum);
    if b.sort == Some(sort) {
      forall k: nat, i: nat | UsedAt(atoms, k, i, b.name) ensures ParamHasSort(vocabulary, atoms[k].name, i, sort) {
        var u := Use(b.name, DeclaredSort(DeclaredParams(vocabulary, atoms[k].name), i));
        assert UseAt(vocabulary, atoms, k, i, u);
        UsesAre(vocabulary, atoms, alnum, u);
        DeclaredSortIs(vocabulary, atoms[k].name, i, sort);
      }
    }
    if UsedOnlyAs(vocabulary, atoms, b.name, sort) {
      forall u | u in uses && u.name == b.name ensures u.sort == Some(sort) {
        UsesAre(vocabulary, atoms, alnum, u);
        var k: nat, i: nat :| UseAt(vocabulary, atoms, k, i, u);
        DeclaredSortIs(vocabulary, atoms[k].name, i, sort);
      }
    }
  }

  // ----- In which order -----

  predicate Earlier(k: nat, i: nat, l: nat, j: nat) {
    k < l || (k == l && i < j)
  }

  /** Before every use of `y` there is one of `x`. */
  ghost predicate UsedBefore(atoms: seq<Atom>, x: string, y: string) {
    forall l: nat, j: nat :: UsedAt(atoms, l, j, y) ==> PrecededBy(atoms, x, l, j)
  }

  /** Skipping an argument that is not `x`, before a use of `y`, keeps which of the two is used first. */
  lemma SkipArgument(
    declared: Option<seq<Param>>, args: seq<string>, from: nat, alnum: CharClass, x: string, y: string)
    requires from < |args| && !(Trim(args[from]) == x && IsVariable(x, alnum))
    requires FirstUse(UsesOfAtom(declared, args, from, alnum), x) < FirstUse(UsesOfAtom(declared, args, from, alnum), y)
    ensures FirstUse(UsesOfAtom(declared, args, from + 1, alnum), x)
            < FirstUse(UsesOfAtom(declared, args, from + 1, alnum), y)
    ensures !(Trim(args[from]) == y && IsVariable(y, alnum))
  {
    var v, rest := Trim(args[from]), UsesOfAtom(declared, args, from + 1, alnum);
    if IsVariable(v, alnum) {
      assert UsesOfAtom(declared, args, from, alnum)[1..] == rest;
    }
  }

  lemma {:induction false} EarlierArgument(
    declared: Option<seq<Param>>, args: seq<string>, from: nat, alnum: CharClass, x: string, y: string, j: nat)
    returns (i: nat)
    requires from <= j < |args| && Trim(args[j]) == y && IsVariable(y, alnum)
    requires FirstUse(UsesOfAtom(declared, args, from, alnum), x) < FirstUse(UsesOfAtom(declared, args, from, alnum), y)
    ensures from <= i < j && Trim(args[i]) == x
    decreases |args| - from
  {
    if Trim(args[from]) == x && IsVariable(x, alnum) {
      i := from;
    } else {
      SkipArgument(declared, args, from, alnum, x, y);
      i := EarlierArgument(declared, args, from + 1, alnum, x, y, j);
    }
  }

  lemma {:induction false} FirstUseConcat(a: seq<Use>, b: seq<Use>, name: string)
    ensures FirstUse(a, name) <= |a|
    ensures FirstUse(a, name) < |a| <==> exists u :: u in a && u.name == name
    ensures FirstUse(a + b, name) == if FirstUse(a, name) < |a| then FirstUse(a, name) else |a| + FirstUse(b, name)
  {
    if a == [] {
      assert a + b == b;
    } else {
      FirstUseConcat(a[1..], b, name);
      assert (a + b)[1..] == a[1..] + b;
      assert forall u :: u in a <==> u == a[0] || u in a[1..];
    }
  }

  lemma UsedInAtom(vocabulary: seq<Decl>, a: Atom, alnum: CharClass, name: string)
    ensures var head := UsesOfAtom(DeclaredParams(vocabulary, a.name), a.args, 0, alnum);
            FirstUse(head, name) < |head| <==>
            IsVariable(name, alnum) && exists j: nat :: j < |a.args| && Trim(a.args[j]) == name
  {
    FirstUseConcat(UsesOfAtom(DeclaredParams(vocabulary, a.name), a.args, 0, alnum), [], name);
    var declared := DeclaredParams(vocabulary, a.name);
    var head := UsesOfAtom(declared, a.args, 0, alnum);
    if u :| u in head && u.name == name {
      AtomUses(declared, a.args, 0, alnum, u);
    }
    if j: nat :| j < |a.args| && Trim(a.args[j]) == name && IsVariable(name, alnum) {
      var u := Use(name, DeclaredSort(declared, j));
      assert ArgumentUse(declared, a.args, j, u);
      AtomUses(declared, a.args, 0, alnum, u);
    }
  }

  lemma FirstUseInParts(head: seq<Use>, tail: seq<Use>, x: string, y: string)
    requires FirstUse(head + tail, x) < FirstUse(head + tail, y)
    ensures FirstUse(head, y) < |head| ==> FirstUse(head, x) < FirstUse(head, y)
    ensures FirstUse(head, x) >= |head| ==> FirstUse(tail, x) < FirstUse(tail, y)
  {
    FirstUseConcat(head, tail, x);
    FirstUseConcat(head, tail, y);
  }

  function HeadUses(vocabulary: seq<Decl>, a: Atom, alnum: CharClass): seq<Use> {
    UsesOfAtom(DeclaredParams(vocabulary, a.name), a.args, 0, alnum)
  }

  lemma EarlierInAtom(
    vocabulary: seq<Decl>, a: Atom, alnum: CharClass, tail: seq<Use>, x: string, y: string, j: nat) returns (i: nat)
    requires j < |a.args| && Trim(a.args[j]) == y && IsVariable(y, alnum)
    requires var head := HeadUses(vocabulary, a, alnum); FirstUse(head + tail, x) < FirstUse(head + tail, y)
    ensures i < j && Trim(a.args[i]) == x
  {
    FirstUseInParts(HeadUses(vocabulary, a, alnum), tail, x, y);
    UsedInAtom(vocabulary, a, alnum, y);
    i := EarlierArgument(DeclaredParams(vocabulary, a.name), a.args, 0, alnum, x, y, j);
  }

  lemma InAtomOrLater(
    vocabulary: seq<Decl>, a: Atom, alnum: CharClass, tail: seq<Use>, x: string, y: string) returns (i: nat)
    requires var head := HeadUses(vocabulary, a, alnum); FirstUse(head + tail, x) < FirstUse(head + tail, y)
    ensures (i < |a.args| && Trim(a.args[i]) == x) || FirstUse(tail, x) < FirstUse(tail, y)
  {
    i := 0;
    FirstUseInParts(HeadUses(vocabulary, a, alnum), tail, x, y);
    UsedInAtom(vocabulary, a, alnum, x);
    if FirstUse(HeadUses(vocabulary, a, alnum), x) < |HeadUses(vocabulary, a, alnum)| {
      i :| i < |a.args| && Trim(a.args[i]) == x;
    }
  }

  ghost predicate PrecededBy(atoms: seq<Atom>, x: string, l: nat, j: nat) {
    exists k: nat, i: nat :: Earlier(k, i, l, j) && UsedAt(atoms, k, i, x)
  }

  lemma PrecededInTail(atoms: seq<Atom>, x: string, l: nat, j: nat)
    requires atoms != [] && l > 0 && PrecededBy(atoms[1..], x, l - 1, j)
    ensures PrecededBy(atoms, x, l, j)
  {
    var k: nat, i: nat :| Earlier(k, i, l - 1, j) && UsedAt(atoms[1..], k, i, x);
    assert Earlier(k + 1, i, l, j) && UsedAt(atoms, k + 1, i, x);
  }

  lemma PrecededInHead(atoms: seq<Atom>, x: string, l: nat, j: nat, i: nat)
    requires atoms != [] && Earlier(0, i, l, j) && i < |atoms[0].args| && Trim(atoms[0].args[i]) == x
    ensures PrecededBy(atoms, x, l, j)
  {
    assert UsedAt(atoms, 0, i, x);
  }

  /** One atom on: `x` is used in it before the use of `y`, or stays ahead of `y` in what follows. */
  lemma PrecededOrLater(
    vocabulary: seq<Decl>, atoms: seq<Atom>, alnum: CharClass, x: string, y: string, l: nat, j: nat)
    requires UsedAt(atoms, l, j, y) && IsVariable(y, alnum)
    requires FirstUse(Uses(vocabulary, atoms, alnum), x) < FirstUse(Uses(vocabulary, atoms, alnum), y)
    ensures PrecededBy(atoms, x, l, j)
            || (l > 0 && FirstUse(Uses(vocabulary, atoms[1..], alnum), x)
                         < FirstUse(Uses(vocabulary, atoms[1..], alnum), y))
  {
    var tail := Uses(vocabulary, atoms[1..], alnum);
    assert Uses(vocabulary, atoms, alnum) == HeadUses(vocabulary, atoms[0], alnum) + tail;
    if l == 0 {
      var i := EarlierInAtom(vocabulary, atoms[0], alnum, tail, x, y, j);
      PrecededInHead(atoms, x, l, j, i);
    } else {
      var i := InAtomOrLater(vocabulary, atoms[0], alnum, tail, x, y);
      if i < |atoms[0].args| && Trim(atoms[0].args[i]) == x {
        PrecededInHead(atoms, x, l, j, i);
      }
    }
  }

  lemma {:induction false} EarlierUse(
    vocabulary: seq<Decl>, atoms: seq<Atom>, alnum: CharClass, x: string, y: string, l: nat, j: nat)
    requires UsedAt(atoms, l, j, y) && IsVariable(y, alnum)
    requires FirstUse(Uses(vocabulary, atoms, alnum), x) < FirstUse(Uses(vocabulary, atoms, alnum), y)
    ensures PrecededBy(atoms, x, l, j)
  {
    PrecededOrLater(vocabulary, atoms, alnum, x, y, l, j);
    if !PrecededBy(atoms, x, l, j) {
      EarlierUse(vocabulary, atoms[1..], alnum, x, y, l - 1, j);
      PrecededInTail(atoms, x, l, j);
    }
  }

  /** Of two implicit variables, the first is used before the second ever is. */
  lemma InOrderOfUse(req: Requirement, prop: Property, alnum: CharClass, i: nat, j: nat)
    requires var binders := Binders(req, prop, alnum); i < j < |binders| && !binders[i].explicit
    ensures var binders := Binders(req, prop, alnum);
            UsedBefore(PropertyAtoms(prop), binders[i].name, binders[j].name)
  {
    var binders, atoms := Binders(req, prop, alnum), PropertyAtoms(prop);
    var uses := Uses(req.vocabulary, atoms, alnum);
    var x, y := binders[i].name, binders[j].name;
    BindersContract(req, prop, alnum);
    WrittenLeads(req, prop, alnum);
    ImplicitReflects(req, prop, alnum, binders[i]);
    ImplicitReflects(req, prop, alnum, binders[j]);
    UsesAreVariables(req.vocabulary, atoms, alnum);
    assert |Explicit(prop)| <= i;
    assert FirstUse(uses, x) < FirstUse(uses, y);
    assert IsVariable(y, alnum);
    forall l: nat, m: nat | UsedAt(atoms, l, m, y) ensures PrecededBy(atoms, x, l, m) {
      EarlierUse(req.vocabulary, atoms, alnum, x, y, l, m);
    }
  }
}
