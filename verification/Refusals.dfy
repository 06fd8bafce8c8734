/**
 Why a claim is refused (`src/lowering.rs`): whatever the operator is told is true of the claim, its
 bindings and what they resolved to.
 */
module Refusals {
  import opened Basics
  import opened Text
  import opened Prl
  import opened Adapter
  import opened Lowering
  import opened LoweringConditions
  import opened ClaimVariables

  predicate Unbound(inp: Inputs, symbol: string) {
    forall b <- inp.bindings :: b.symbol != symbol
  }

  predicate ResolvedWith(inp: Inputs, symbol: string, arity: nat) {
    symbol in inp.resolutions && inp.resolutions[symbol].Resolved? && |inp.resolutions[symbol].params| == arity
  }

  /** What a refusal says of a call is so. */
  ghost predicate TrueOfCall(a: Atom, binders: seq<Binder>, inp: Inputs, r: Refusal) {
    match r
    case Guarded(name) => a.name == name && a.guard.Some?
    case NotBound(name) => a.name == name && Unbound(inp, name)
    case NotResolved(name) => a.name == name && (name in inp.resolutions ==> inp.resolutions[name].Unresolved?)
    case WrongArity(name) =>
      && a.name == name && name in inp.resolutions && inp.resolutions[name].Resolved?
      && |inp.resolutions[name].params| != |a.args|
    case NotAVariable(name, arg) =>
      a.name == name && !IsBound(binders, arg) && exists i :: 0 <= i < |a.args| && Trim(a.args[i]) == arg
    case NoReceiver(name) =>
      && a.args == [] && a.name in inp.resolutions && inp.resolutions[a.name].Resolved?
      && inp.resolutions[a.name].form.Method? && inp.resolutions[a.name].form.name == name
    case Unreachable(_) =>
      && a.name in inp.resolutions && inp.resolutions[a.name].Resolved?
      && !FormReachable(inp.resolutions[a.name].form, inp.resolutions[a.name].at, |a.args|)
    case _ => false
  }

  /** What a refusal says of a variable's sort is so. */
  predicate TrueOfSort(b: Binder, inp: Inputs, r: Refusal) {
    match r
    case NoSort(name) => b.name == name && b.sort == None
    case SortNotBound(sort) => b.sort == Some(sort) && Unbound(inp, sort)
    case SortNotResolved(sort) => b.sort == Some(sort) && (sort in inp.sorts ==> inp.sorts[sort] == NoType)
    case Unreachable(_) => b.sort.Some? && b.sort.value in inp.sorts && !TypeReachable(inp.sorts[b.sort.value])
    case _ => false
  }

  /** What a refusal says of a variable standing as a condition is so. */
  predicate TrueOfCondition(b: Binder, inp: Inputs, r: Refusal) {
    match r
    case UntypedCondition(name) => b.name == name && b.sort == None
    case NotBool(name) =>
      && b.name == name && b.sort.Some? && b.sort.value in inp.sorts
      && inp.sorts[b.sort.value] != NoType && inp.sorts[b.sort.value] != Primitive("bool")
    case _ => false
  }

  ghost predicate SomeCondition(prop: Property, binders: seq<Binder>, inp: Inputs, r: Refusal) {
    exists a, b :: a in PropertyAtoms(prop) && a.args == [] && b in binders && b.name == a.name
                   && TrueOfCondition(b, inp, r)
  }

  ghost predicate SomeCall(e: Expr, binders: seq<Binder>, inp: Inputs, r: Refusal) {
    exists a :: a in ExprAtoms(e) && TrueOfCall(a, binders, inp, r)
  }

  ghost predicate SomeSort(binders: seq<Binder>, inp: Inputs, r: Refusal) {
    exists b :: b in binders && TrueOfSort(b, inp, r)
  }

  lemma {:induction false} ConditionRefusal(
    prop: Property, atoms: seq<Atom>, binders: seq<Binder>, inp: Inputs, r: Refusal)
    requires FirstConditionProblem(atoms, binders, inp.sorts) == Some(r)
    requires forall a <- atoms :: a in PropertyAtoms(prop)
    ensures SomeCondition(prop, binders, inp, r)
  {
    if ConditionProblem(atoms[0], binders, inp.sorts) == Some(r) {
      var b := binders[FindBinder(binders, atoms[0].name).value];
      assert b in binders && TrueOfCondition(b, inp, r);
    } else {
      ConditionRefusal(prop, atoms[1..], binders, inp, r);
    }
  }

  lemma {:induction false} ArgumentRefusal(
    name: string, args: seq<string>, params: seq<ParamMode>, binders: seq<Binder>, r: Refusal) returns (i: nat)
    requires |args| == |params| && LowerArgs(name, args, params, binders) == Err(r)
    ensures i < |args| && r == NotAVariable(name, Trim(args[i])) && !IsBound(binders, Trim(args[i]))
  {
    if Binds(binders, Trim(args[0])) {
      i := ArgumentRefusal(name, args[1..], params[1..], binders, r);
      i := i + 1;
    } else {
      i := 0;
    }
  }

  lemma CallRefusal(
    form: PredicateForm, observable: string, args: seq<seq<Token>>, prefix: string, at: CodeMatch, r: Refusal)
    requires LowerCall(form, observable, args, prefix, at) == Err(r)
    ensures (r.NoReceiver? && args == [] && form.Method? && form.name == r.name)
            || (r.Unreachable? && !FormReachable(form, at, |args|))
  {
    CallTextSucceeds(form, observable, args, prefix, at);
  }

  lemma AtomRefusal(a: Atom, binders: seq<Binder>, inp: Inputs, r: Refusal)
    requires AtomText(a, binders, inp) == Err(r)
    ensures TrueOfCall(a, binders, inp, r)
  {
    if a.guard.None? && FindBinding(inp.bindings, a.name).Some? && ResolvedWith(inp, a.name, |a.args|) {
      var Resolved(at, params, form) := inp.resolutions[a.name];
      if LowerArgs(a.name, a.args, params, binders).Err? {
        var i := ArgumentRefusal(a.name, a.args, params, binders, r);
      } else {
        LowerArgsSucceeds(a.name, a.args, params, binders);
        CallRefusal(form, inp.bindings[FindBinding(inp.bindings, a.name).value].observable,
                    ArgTexts(a.args, params), inp.prefix, at, r);
      }
    }
  }

  lemma {:induction false} ExprRefusal(e: Expr, binders: seq<Binder>, inp: Inputs, r: Refusal)
    requires ExprText(e, binders, inp) == Err(r)
    ensures SomeCall(e, binders, inp, r)
    decreases e, 1
  {
    match e {
      case Apply(a) =>
        AtomRefusal(a, binders, inp, r);
        assert a in ExprAtoms(e);
      case Not(inner) => ExprRefusal(inner, binders, inp, r);
      case And(left, right) => EitherRefusal(e, left, right, binders, inp, r);
      case Or(left, right) => EitherRefusal(e, left, right, binders, inp, r);
    }
  }

  lemma {:induction false} EitherRefusal(
    e: Expr, left: Expr, right: Expr, binders: seq<Binder>, inp: Inputs, r: Refusal)
    requires ExprAtoms(e) == ExprAtoms(left) + ExprAtoms(right) && left < e && right < e
    requires ExprText(left, binders, inp) == Err(r) || ExprText(right, binders, inp) == Err(r)
    ensures SomeCall(e, binders, inp, r)
    decreases e, 0
  {
    if ExprText(left, binders, inp) == Err(r) {
      ExprRefusal(left, binders, inp, r);
    } else {
      ExprRefusal(right, binders, inp, r);
    }
  }

  lemma SortRefusal(b: Binder, inp: Inputs, r: Refusal)
    requires SortType(b, inp) == Err(r)
    ensures TrueOfSort(b, inp, r)
  {
    SortTypeSucceeds(b, inp);
    if b.sort.Some? && b.sort.value in inp.sorts && inp.sorts[b.sort.value].Applied? {
      ArgTypesRefusal(inp.prefix, inp.sorts[b.sort.value].args);
    }
  }

  lemma {:induction false} ArgTypesRefusal(prefix: string, args: seq<(string, ArgResolution)>)
    ensures ArgTypes(prefix, args).Err? ==> ArgTypes(prefix, args).error.Unreachable?
  {
    if args != [] {
      ArgTypesRefusal(prefix, args[1..]);
    }
  }

  lemma {:induction false} QuantifyRefusal(all: seq<Binder>, binders: seq<Binder>, inp: Inputs, r: Refusal)
    requires Quantify(binders, inp) == Err(r) && forall b <- binders :: b in all
    ensures SomeSort(all, inp, r)
  {
    if SortType(binders[0], inp) == Err(r) {
      SortRefusal(binders[0], inp, r);
    } else {
      QuantifyRefusal(all, binders[1..], inp, r);
    }
  }

  /**
   A refusal is always true of the claim. A condition that is not `bool` is told first, then a scope, then
   a pattern or a call of the claim, and a sort only when the claim itself lowers.
   */
  lemma RefusalIsTrue(req: Requirement, prop: Property, inp: Inputs, alnum: CharClass)
    requires LowerProperty(req, prop, inp, alnum).Err?
    ensures var binders, r := Binders(req, prop, alnum), LowerProperty(req, prop, inp, alnum).error;
            || SomeCondition(prop, binders, inp, r)
            || (prop.scope != Globally && r == Scoped)
            || (prop.scope == Globally && !prop.pattern.Always? && !prop.pattern.Never? && r == NotAnInvariant)
            || (prop.scope == Globally && IsInvariant(prop.pattern) && SomeCall(ClaimOf(prop.pattern), binders, inp, r))
            || (&& prop.scope == Globally && IsInvariant(prop.pattern)
                && (forall a <- ExprAtoms(ClaimOf(prop.pattern)) :: AtomLowers(a, binders, inp))
                && SomeSort(binders, inp, r))
  {
    var binders, r := Binders(req, prop, alnum), LowerProperty(req, prop, inp, alnum).error;
    if FirstConditionProblem(PropertyAtoms(prop), binders, inp.sorts).Some? {
      ConditionRefusal(prop, PropertyAtoms(prop), binders, inp, r);
    } else if prop.scope == Globally && IsInvariant(prop.pattern) {
      if ExprText(ClaimOf(prop.pattern), binders, inp).Err? {
        ExprRefusal(ClaimOf(prop.pattern), binders, inp, r);
      } else {
        ExprTextSucceeds(ClaimOf(prop.pattern), binders, inp);
        QuantifyRefusal(binders, binders, inp, r);
      }
    }
  }
}
