/**
 What lowering is handed after grounding: the bindings of a draft and the two code maps resolved from
 them. A sort a claim ranges over is then never resolved as a predicate, which the mirror channel needs.
 */
module GroundedInputs {
  import opened Basics
  import opened Text
  import opened Prl
  import opened Adapter
  import opened GroundingSchema
  import opened Drafts
  import opened Grounding
  import opened Lowering
  import opened Mirrors

  function InputsOf(prefix: string, bindings: seq<Binding>, r: Resolutions): Inputs {
    Inputs(prefix, bindings, r.code, r.sorts)
  }

  lemma {:induction false} ParamSortSpoken(params: seq<Param>, i: nat)
    requires i < |params|
    ensures Trim(params[i].ty) in ParamSorts(params)
  {
    if i > 0 {
      ParamSortSpoken(params[1..], i - 1);
    }
  }

  lemma {:induction false} DeclaredSortSpoken(vocabulary: seq<Decl>, name: string, i: nat)
    ensures var sort := DeclaredSort(DeclaredParams(vocabulary, name), i);
            sort.Some? ==> sort.value in DeclSorts(vocabulary)
  {
    if vocabulary != [] {
      var d := vocabulary[0];
      if (d.Event? || d.State?) && d.name == name {
        if i < |d.params| {
          ParamSortSpoken(d.params, i);
        }
      } else {
        DeclaredSortSpoken(vocabulary[1..], name, i);
      }
    }
  }

  lemma {:induction false} UseOfAtomSpoken(
    vocabulary: seq<Decl>, name: string, args: seq<string>, i: nat, alnum: CharClass)
    requires i <= |args|
    ensures forall u <- UsesOfAtom(DeclaredParams(vocabulary, name), args, i, alnum) ::
              u.sort.Some? ==> u.sort.value in DeclSorts(vocabulary)
    decreases |args| - i
  {
    if i < |args| {
      var declared := DeclaredParams(vocabulary, name);
      var first, rest := Use(Trim(args[i]), DeclaredSort(declared, i)), UsesOfAtom(declared, args, i + 1, alnum);
      DeclaredSortSpoken(vocabulary, name, i);
      UseOfAtomSpoken(vocabulary, name, args, i + 1, alnum);
      forall u | u in UsesOfAtom(declared, args, i, alnum) && u.sort.Some?
        ensures u.sort.value in DeclSorts(vocabulary)
      {
        assert u == first || u in rest;
      }
    }
  }

  lemma {:induction false} UsesSpoken(vocabulary: seq<Decl>, atoms: seq<Atom>, alnum: CharClass)
    ensures forall u <- Uses(vocabulary, atoms, alnum) :: u.sort.Some? ==> u.sort.value in DeclSorts(vocabulary)
  {
    if atoms != [] {
      UseOfAtomSpoken(vocabulary, atoms[0].name, atoms[0].args, 0, alnum);
      UsesSpoken(vocabulary, atoms[1..], alnum);
    }
  }

  lemma {:induction false} QuantifierSpoken(props: seq<Property>, prop: Property)
    requires prop in props && prop.quantifier.Some?
    ensures prop.quantifier.value.sort in QuantifierSorts(props)
  {
    if prop != props[0] {
      QuantifierSpoken(props[1..], prop);
    }
  }

  /** Every sort a claim of the requirement ranges over is one the requirement speaks of. */
  lemma BinderSortsSpoken(req: Requirement, prop: Property, b: Binder, alnum: CharClass)
    requires prop in req.require && b in Binders(req, prop, alnum) && b.sort.Some?
    ensures b.sort.value in SpokenSorts(req)
  {
    BindersContract(req, prop, alnum);
    if b in Explicit(prop) {
      QuantifierSpoken(req.require, prop);
    } else {
      var uses := Uses(req.vocabulary, PropertyAtoms(prop), alnum);
      UsesSpoken(req.vocabulary, PropertyAtoms(prop), alnum);
      var binders := Binders(req, prop, alnum);
      var i :| 0 <= i < |binders| && binders[i] == b;
      assert i >= |Explicit(prop)|;
      assert SortReflects(b, uses);
      var u :| u in uses && u.name == b.name;
      assert u.sort == b.sort;
    }
  }

  /** In every draft a run reaches, no sort of a claim goes by the name of a resolved predicate. */
  lemma ReachableSortsApart(
    gate: Gate, parseFidelity: string -> Option<Fidelity>, steps: seq<Step>, id: string,
    req: Requirement, prop: Property, ad: Adapters, alnum: CharClass, prefix: string)
    requires id in Run(gate, parseFidelity, steps) && prop in req.require
    ensures var bindings := Run(gate, parseFidelity, steps)[id].bindings;
            SortsApart(Binders(req, prop, alnum), InputsOf(prefix, bindings, ResolveBindings(req, bindings, ad, alnum)))
  {
    RunsAreSound(gate, parseFidelity, steps);
    var bindings := Run(gate, parseFidelity, steps)[id].bindings;
    var r := ResolveBindings(req, bindings, ad, alnum);
    forall b | b in Binders(req, prop, alnum) && b.sort.Some? ensures b.sort.value !in r.code {
      BinderSortsSpoken(req, prop, b, alnum);
      WorldKeys(req, bindings, ad, alnum, b.sort.value);
      assert DraftSound(gate, Run(gate, parseFidelity, steps)[id]);
    }
  }
}
