/**
 The PRL syntax tree (`src/prl/ast.rs`) and the variables a claim ranges over.

 Source lines and the raw `assume`/`strength`/`evidence` text play no part in what is modelled.
 */
module Prl {
  import opened Basics
  import opened Text

  datatype Category = Code | Model | Runtime | Ui

  datatype Param = Param(name: string, ty: string)

  datatype Decl =
    | Sort(name: string)
    | Event(name: string, params: seq<Param>)
    | State(name: string, params: seq<Param>)
    | Identity(raw: string)

  datatype Atom = Atom(name: string, args: seq<string>, guard: Option<string>)

  datatype Expr =
    | Apply(atom: Atom)
    | Not(inner: Expr)
    | And(left: Expr, right: Expr)
    | Or(left: Expr, right: Expr)

  datatype Pattern =
    | Never(claim: Expr)
    | Always(claim: Expr)
    | Eventually(claim: Expr)
    | LeadsTo(from: Expr, to: Expr, within: Option<string>)
    | Precedes(first: Expr, next: Expr)
    | OccursAtMost(event: Expr, k: nat)
    | CanReach(claim: Expr)

  datatype Scope = Globally | Before(until: Atom) | After(since: Atom) | Between(since: Atom, until: Atom)

  datatype Quantifier = Quantifier(name: string, sort: string)

  datatype Property = Property(quantifier: Option<Quantifier>, pattern: Pattern, scope: Scope)

  datatype Requirement = Requirement(
    name: string, category: seq<Category>, vocabulary: seq<Decl>, require: seq<Property>)

  /** One variable a claim ranges over; `sort` is `None` when the requirement does not say. */
  datatype Binder = Binder(name: string, sort: Option<string>, explicit: bool)

  function ExprAtoms(e: Expr): seq<Atom> {
    match e
    case Apply(a) => [a]
    case Not(inner) => ExprAtoms(inner)
    case And(l, r) => ExprAtoms(l) + ExprAtoms(r)
    case Or(l, r) => ExprAtoms(l) + ExprAtoms(r)
  }

  function PatternAtoms(p: Pattern): seq<Atom> {
    match p
    case Never(e) => ExprAtoms(e)
    case Always(e) => ExprAtoms(e)
    case Eventually(e) => ExprAtoms(e)
    case CanReach(e) => ExprAtoms(e)
    case LeadsTo(from, to, _) => ExprAtoms(from) + ExprAtoms(to)
    case Precedes(first, next) => ExprAtoms(first) + ExprAtoms(next)
    case OccursAtMost(event, _) => ExprAtoms(event)
  }

  function ScopeAtoms(s: Scope): seq<Atom> {
    match s
    case Globally => []
    case Before(b) => [b]
    case After(a) => [a]
    case Between(a, b) => [a, b]
  }

  /** Every atom of a property in visiting order: pattern operands, then scope boundaries. */
  function PropertyAtoms(p: Property): seq<Atom> {
    PatternAtoms(p.pattern) + ScopeAtoms(p.scope)
  }

  predicate IsInvariant(p: Pattern) {
    p.Always? || p.Never?
  }

  /** The declared parameters of an event or state predicate. */
  function DeclaredParams(vocabulary: seq<Decl>, name: string): (r: Option<seq<Param>>)
    ensures r.Some? <==> exists d :: d in vocabulary && (d.Event? || d.State?) && d.name == name
  {
    if vocabulary == [] then None
    else
      var d := vocabulary[0];
      assert forall e :: e in vocabulary <==> e == d || e in vocabulary[1..];
      if (d.Event? || d.State?) && d.name == name then Some(d.params)
      else DeclaredParams(vocabulary[1..], name)
  }

  predicate IsVariable(term: string, alnum: CharClass) {
    && term != "true" && term != "false"
    && term != ""
    && !('0' <= term[0] <= '9')
    && forall c <- term :: alnum(c) || c == '_'
  }

  predicate ClosesOverFreeVariables(req: Requirement, prop: Property) {
    IsInvariant(prop.pattern) && (req.category == [] || Code in req.category)
  }

  /** One application of a predicate to a variable, and the sort declared for that parameter. */
  datatype Use = Use(name: string, sort: Option<string>)

  function UsesOfAtom(declared: Option<seq<Param>>, args: seq<string>, i: nat, alnum: CharClass): seq<Use>
    requires i <= |args|
    decreases |args| - i
  {
    if i == |args| then []
    else
      var v := Trim(args[i]);
      var rest := UsesOfAtom(declared, args, i + 1, alnum);
      if IsVariable(v, alnum) then [Use(v, DeclaredSort(declared, i))] + rest else rest
  }

  function DeclaredSort(declared: Option<seq<Param>>, i: nat): Option<string> {
    if declared.Some? && i < |declared.value| && Trim(declared.value[i].ty) != ""
    then Some(Trim(declared.value[i].ty))
    else None
  }

  function Uses(vocabulary: seq<Decl>, atoms: seq<Atom>, alnum: CharClass): seq<Use> {
    if atoms == [] then []
    else
      UsesOfAtom(DeclaredParams(vocabulary, atoms[0].name), atoms[0].args, 0, alnum)
      + Uses(vocabulary, atoms[1..], alnum)
  }

  function FindBinder(binders: seq<Binder>, name: string): Option<nat> {
    Position(binders, (b: Binder) => b.name == name)
  }

  function NoteUse(binders: seq<Binder>, u: Use): seq<Binder> {
    match FindBinder(binders, u.name)
    case None => binders + [Binder(u.name, u.sort, false)]
    case Some(i) =>
      if !binders[i].explicit && binders[i].sort != u.sort
      then binders[i := binders[i].(sort := None)]
      else binders
  }

  function NoteUses(binders: seq<Binder>, uses: seq<Use>): seq<Binder>
    decreases |uses|
  {
    if uses == [] then binders else NoteUses(NoteUse(binders, uses[0]), uses[1..])
  }

  function Explicit(prop: Property): seq<Binder> {
    match prop.quantifier
    case None => []
    case Some(q) => [Binder(q.name, Some(q.sort), true)]
  }

  function Binders(req: Requirement, prop: Property, alnum: CharClass): seq<Binder> {
    if ClosesOverFreeVariables(req, prop)
    then NoteUses(Explicit(prop), Uses(req.vocabulary, PropertyAtoms(prop), alnum))
    else Explicit(prop)
  }

  // ----- What the binders are -----

  ghost predicate Distinct(binders: seq<Binder>) {
    forall i, j :: 0 <= i < j < |binders| ==> binders[i].name != binders[j].name
  }

  predicate Binds(binders: seq<Binder>, name: string) {
    FindBinder(binders, name).Some?
  }

  /** A sort is kept only while every use seen so far agrees on it. */
  ghost predicate SortReflects(b: Binder, uses: seq<Use>) {
    && (exists u :: u in uses && u.name == b.name)
    && forall s :: b.sort == Some(s) <==> (forall u | u in uses && u.name == b.name :: u.sort == Some(s))
  }

  ghost predicate Reflects(start: seq<Binder>, binders: seq<Binder>, uses: seq<Use>) {
    && Distinct(binders)
    && start <= binders
    && (forall i :: |start| <= i < |binders| ==> !binders[i].explicit && SortReflects(binders[i], uses))
    && (forall u :: u in uses ==> Binds(binders, u.name))
  }

  lemma ReflectsOther(b: Binder, uses: seq<Use>, u: Use)
    requires b.name != u.name && SortReflects(b, uses)
    ensures SortReflects(b, uses + [u])
  {
    assert forall v :: v in uses + [u] && v.name == b.name <==> v in uses && v.name == b.name;
  }

  lemma ReflectsSame(b: Binder, uses: seq<Use>, u: Use)
    requires b.name == u.name && SortReflects(b, uses)
    ensures SortReflects(if b.sort != u.sort then b.(sort := None) else b, uses + [u])
  {
    var w :| w in uses && w.name == b.name;
    assert forall v :: v in uses + [u] <==> v in uses || v == u;
    assert w in uses + [u];
  }

  lemma ReflectsNew(uses: seq<Use>, u: Use)
    requires forall v <- uses :: v.name != u.name
    ensures SortReflects(Binder(u.name, u.sort, false), uses + [u])
  {
    assert forall v :: v in uses + [u] && v.name == u.name <==> v == u;
  }

  lemma NoteUseBinds(binders: seq<Binder>, u: Use, name: string)
    ensures Binds(NoteUse(binders, u), name) <==> Binds(binders, name) || name == u.name
  {
    var after := NoteUse(binders, u);
    match FindBinder(binders, u.name) {
      case None => assert after[|binders|].name == u.name;
      case Some(k) => assert after[k].name == u.name;
    }
    if Binds(binders, name) {
      assert after[FindBinder(binders, name).value].name == name;
    }
  }

  lemma NoteUseReflects(start: seq<Binder>, binders: seq<Binder>, uses: seq<Use>, u: Use)
    requires Reflects(start, binders, uses)
    requires forall b :: b in start ==> b.explicit
    ensures Reflects(start, NoteUse(binders, u), uses + [u])
  {
    var after := NoteUse(binders, u);
    forall i | |start| <= i < |after|
      ensures !after[i].explicit && SortReflects(after[i], uses + [u])
    {
      NoteUseReflectsAt(start, binders, uses, u, i);
    }
    forall v | v in uses + [u] ensures Binds(after, v.name) {
      NoteUseBinds(binders, u, v.name);
    }
    NoteUseKeepsStart(start, binders, u);
  }

  lemma NoteUseReflectsAt(start: seq<Binder>, binders: seq<Binder>, uses: seq<Use>, u: Use, i: nat)
    requires Reflects(start, binders, uses) && |start| <= i < |NoteUse(binders, u)|
    ensures !NoteUse(binders, u)[i].explicit && SortReflects(NoteUse(binders, u)[i], uses + [u])
  {
    if i == |binders| {
      forall v | v in uses ensures v.name != u.name {
        assert Binds(binders, v.name);
      }
      ReflectsNew(uses, u);
    } else if binders[i].name != u.name {
      ReflectsOther(binders[i], uses, u);
    } else {
      assert FindBinder(binders, u.name) == Some(i);
      ReflectsSame(binders[i], uses, u);
    }
  }

  lemma NoteUseKeepsStart(start: seq<Binder>, binders: seq<Binder>, u: Use)
    requires Distinct(binders) && start <= binders && forall b :: b in start ==> b.explicit
    ensures Distinct(NoteUse(binders, u)) && start <= NoteUse(binders, u)
  {
    match FindBinder(binders, u.name) {
      case None =>
      case Some(k) =>
        if k < |start| {
          assert binders[k] == start[k] && start[k] in start;
        }
    }
  }

  lemma {:induction false} NoteUsesReflects(start: seq<Binder>, binders: seq<Binder>, uses: seq<Use>, done: nat)
    requires done <= |uses|
    requires Reflects(start, binders, uses[..done])
    requires forall b :: b in start ==> b.explicit
    ensures Reflects(start, NoteUses(binders, uses[done..]), uses)
    decreases |uses| - done
  {
    if done == |uses| {
      assert uses[..done] == uses;
    } else {
      NoteUseReflects(start, binders, uses[..done], uses[done]);
      assert uses[..done] + [uses[done]] == uses[..done + 1];
      NoteUsesReflects(start, NoteUse(binders, uses[done]), uses, done + 1);
      assert uses[done..][1..] == uses[done + 1..];
    }
  }

  // ----- The order of the binders -----

  /** Where `name` is first used; past the end when it is not. */
  function FirstUse(uses: seq<Use>, name: string): nat {
    if uses == [] || uses[0].name == name then 0 else 1 + FirstUse(uses[1..], name)
  }

  lemma {:induction false} FirstUseSnoc(uses: seq<Use>, u: Use, name: string)
    ensures FirstUse(uses, name) <= |uses|
    ensures FirstUse(uses, name) < |uses| <==> exists v :: v in uses && v.name == name
    ensures FirstUse(uses + [u], name) ==
            if FirstUse(uses, name) < |uses| || u.name == name then FirstUse(uses, name) else |uses| + 1
  {
    if uses == [] {
      assert [] + [u] == [u] && [u][1..] == [];
    } else {
      FirstUseSnoc(uses[1..], u, name);
      assert (uses + [u])[1..] == uses[1..] + [u];
      assert forall v :: v in uses <==> v == uses[0] || v in uses[1..];
    }
  }

  /** From `from` on, a binder comes before another exactly as their first uses do. */
  ghost predicate InFirstUseOrder(binders: seq<Binder>, from: nat, uses: seq<Use>) {
    forall i, j :: from <= i < j < |binders| ==> FirstUse(uses, binders[i].name) < FirstUse(uses, binders[j].name)
  }

  /** A binder whose sort reflects the uses is one of the variables used. */
  lemma ReflectsIsUsed(b: Binder, uses: seq<Use>, u: Use)
    requires SortReflects(b, uses)
    ensures FirstUse(uses, b.name) < |uses| && FirstUse(uses + [u], b.name) == FirstUse(uses, b.name)
  {
    FirstUseSnoc(uses, u, b.name);
  }

  lemma NoteUseNames(binders: seq<Binder>, u: Use)
    ensures var after := NoteUse(binders, u);
            && |binders| <= |after| <= |binders| + 1
            && (forall i :: 0 <= i < |binders| ==> after[i].name == binders[i].name)
            && (|after| > |binders| ==> after[|binders|].name == u.name && !Binds(binders, u.name))
  {
  }

  lemma NewUseIsLast(binders: seq<Binder>, uses: seq<Use>, u: Use)
    requires !Binds(binders, u.name) && forall v :: v in uses ==> Binds(binders, v.name)
    ensures FirstUse(uses + [u], u.name) == |uses|
  {
    FirstUseSnoc(uses, u, u.name);
    forall v | v in uses ensures v.name != u.name {
      assert Binds(binders, v.name);
    }
  }

  lemma NoteUseKeepsOrder(start: seq<Binder>, binders: seq<Binder>, uses: seq<Use>, u: Use)
    requires Reflects(start, binders, uses) && InFirstUseOrder(binders, |start|, uses)
    ensures InFirstUseOrder(NoteUse(binders, u), |start|, uses + [u])
  {
    var after := NoteUse(binders, u);
    NoteUseNames(binders, u);
    forall i, j | |start| <= i < j < |after|
      ensures FirstUse(uses + [u], after[i].name) < FirstUse(uses + [u], after[j].name)
    {
      ReflectsIsUsed(binders[i], uses, u);
      if j < |binders| {
        ReflectsIsUsed(binders[j], uses, u);
      } else {
        NewUseIsLast(binders, uses, u);
      }
    }
  }

  lemma {:induction false} NoteUsesKeepOrder(start: seq<Binder>, binders: seq<Binder>, uses: seq<Use>, done: nat)
    requires done <= |uses| && forall b :: b in start ==> b.explicit
    requires Reflects(start, binders, uses[..done]) && InFirstUseOrder(binders, |start|, uses[..done])
    ensures InFirstUseOrder(NoteUses(binders, uses[done..]), |start|, uses)
    decreases |uses| - done
  {
    if done == |uses| {
      assert uses[..done] == uses;
    } else {
      assert uses[..done] + [uses[done]] == uses[..done + 1];
      NoteUseReflects(start, binders, uses[..done], uses[done]);
      NoteUseKeepsOrder(start, binders, uses[..done], uses[done]);
      NoteUsesKeepOrder(start, NoteUse(binders, uses[done]), uses, done + 1);
      assert uses[done..][1..] == uses[done + 1..];
    }
  }

  /**
   The contract every consumer of `binders` leans on: the variables are distinct, a written `each`
   leads and keeps the sort it was written with, an implicit variable has a sort exactly when every
   application that mentions it declares that same sort, and they come in the order of their first use.
   */
  lemma BindersContract(req: Requirement, prop: Property, alnum: CharClass)
    ensures Distinct(Binders(req, prop, alnum))
    ensures Explicit(prop) <= Binders(req, prop, alnum)
    ensures var uses := Uses(req.vocabulary, PropertyAtoms(prop), alnum);
            ClosesOverFreeVariables(req, prop) ==>
              && Reflects(Explicit(prop), Binders(req, prop, alnum), uses)
              && InFirstUseOrder(Binders(req, prop, alnum), |Explicit(prop)|, uses)
  {
    if ClosesOverFreeVariables(req, prop) {
      var uses := Uses(req.vocabulary, PropertyAtoms(prop), alnum);
      NoteUsesReflects(Explicit(prop), Explicit(prop), uses, 0);
      NoteUsesKeepOrder(Explicit(prop), Explicit(prop), uses, 0);
      assert uses[0..] == uses;
    }
  }

  /** A literal argument is never a variable, so no claim is closed over one. */
  lemma {:induction false} UsesAreVariables(vocabulary: seq<Decl>, atoms: seq<Atom>, alnum: CharClass)
    ensures forall u :: u in Uses(vocabulary, atoms, alnum) ==> IsVariable(u.name, alnum)
  {
    if atoms != [] {
      UsesOfAtomAreVariables(DeclaredParams(vocabulary, atoms[0].name), atoms[0].args, 0, alnum);
      UsesAreVariables(vocabulary, atoms[1..], alnum);
    }
  }

  lemma {:induction false} UsesOfAtomAreVariables(
    declared: Option<seq<Param>>, args: seq<string>, i: nat, alnum: CharClass)
    requires i <= |args|
    ensures forall u :: u in UsesOfAtom(declared, args, i, alnum) ==> IsVariable(u.name, alnum)
    decreases |args| - i
  {
    if i < |args| {
      UsesOfAtomAreVariables(declared, args, i + 1, alnum);
    }
  }
}
