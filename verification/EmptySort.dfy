/**
 A requirement whose Kani harness holds while the requirement is false: `each u: E, always q` followed by
 `always q`, where `E` is a type without values and the function bound to `q` answers false.
 */
module EmptySort {
  import opened Basics
  import opened Text
  import opened Prl
  import opened Adapter
  import opened Lowering
  import opened LoweringConditions
  import opened Meaning
  import opened Harness
  import opened GateCheck

  const Q := Atom("q", [], None)
  const OVER_EMPTY := Property(Some(Quantifier("u", "E")), Always(Apply(Q)), Globally)
  const GROUND := Property(None, Always(Apply(Q)), Globally)
  const REQUIREMENT := Requirement("r", [Code], [Sort("E"), State("q", [])], [OVER_EMPTY, GROUND])

  const AT := CodeMatch("src/lib.rs", 1, Some([]))

  function Input(prefix: string): Inputs {
    Inputs(
      prefix,
      [Binding("q", CodeWorld, "f", Definitional), Binding("E", CodeWorld, "E", Definitional)],
      map["q" := Resolved(AT, [], Function)],
      map["E" := Declared(AT)])
  }

  /** Every function answers false, and no type has a value. */
  ghost function Program(): Subject<bool> {
    AllFalse().(inhabits := (ty: TypeRef, v: bool) => false)
  }

  lemma UsesAre(alnum: CharClass)
    ensures Uses(REQUIREMENT.vocabulary, [Q], alnum) == []
  {
    assert [Q][1..] == [];
  }

  lemma BindersAre(alnum: CharClass)
    ensures Binders(REQUIREMENT, OVER_EMPTY, alnum) == [Binder("u", Some("E"), true)]
    ensures Binders(REQUIREMENT, GROUND, alnum) == []
  {
    UsesAre(alnum);
    assert PropertyAtoms(OVER_EMPTY) == [Q] && PropertyAtoms(GROUND) == [Q];
  }

  lemma ItGates(alnum: CharClass)
    ensures Gates(REQUIREMENT, alnum)
  {
    assert PropertyAtoms(OVER_EMPTY) == [Q] && PropertyAtoms(GROUND) == [Q];
    assert DeclaredParams(REQUIREMENT.vocabulary, "q") == Some([]) by {
      assert REQUIREMENT.vocabulary[1..][0] == State("q", []);
    }
  }

  lemma Lookups(prefix: string)
    ensures FindBinding(Input(prefix).bindings, "q") == Some(0) && FindBinding(Input(prefix).bindings, "E") == Some(1)
    ensures !Binds([Binder("u", Some("E"), true)], "q") && !Binds([], "q")
  {
  }

  lemma OverEmptyLowers(prefix: string)
    ensures Lowerable(OVER_EMPTY, [Binder("u", Some("E"), true)], Input(prefix))
  {
    Lookups(prefix);
    assert ExprAtoms(Apply(Q)) == [Q];
  }

  lemma GroundLowers(prefix: string)
    ensures Lowerable(GROUND, [], Input(prefix))
  {
    Lookups(prefix);
    assert ExprAtoms(Apply(Q)) == [Q];
  }

  lemma ItLowers(prefix: string, alnum: CharClass)
    ensures Claims(REQUIREMENT, CreusotInputs(Input(prefix)), alnum).Ok?
  {
    BindersAre(alnum);
    OverEmptyLowers(prefix);
    GroundLowers(prefix);
    HarnessesExistTogether(REQUIREMENT, "", Input(prefix), alnum);
    assert forall p :: p in REQUIREMENT.require <==> p == OVER_EMPTY || p == GROUND;
  }

  lemma ItsSignaturesAreRead(prefix: string, alnum: CharClass)
    ensures SignaturesRead(Program(), REQUIREMENT, Input(prefix), alnum)
  {
    Lookups(prefix);
    assert ExprAtoms(Apply(Q)) == [Q];
  }

  lemma NothingToAssign(prefix: string, alnum: CharClass)
    ensures !HasAssignment(Program(), REQUIREMENT, OVER_EMPTY, Input(prefix), alnum)
    ensures ClosureHolds(Program(), REQUIREMENT, OVER_EMPTY, Input(prefix), alnum)
  {
    BindersAre(alnum);
    var b := Binder("u", Some("E"), true);
    forall env: Env<bool> ensures !Assignment(Program(), [b], Input(prefix), env) {
      assert b in [b] && !BinderFits(Program(), b, Input(prefix), env);
    }
  }

  lemma GroundIsFalse(prefix: string, alnum: CharClass)
    ensures !ClosureHolds(Program(), REQUIREMENT, GROUND, Input(prefix), alnum)
  {
    BindersAre(alnum);
    Lookups(prefix);
    var none: Env<bool> := map[];
    assert Assignment(Program(), [], Input(prefix), none);
    assert TrimmedArgs(Q) == [] && Values([], none) == [];
    assert AtomTruth(Program(), BinderWins, REQUIREMENT.vocabulary, Q, [], Input(prefix), none) == Some(false);
  }

  /** The gate accepts the requirement, it lowers, its Kani harness holds, and it is false of the subject. */
  lemma KaniHoldsOfAFalseRequirement(prefix: string, crateName: string, alnum: CharClass)
    ensures Gates(REQUIREMENT, alnum)
    ensures Claims(REQUIREMENT, KaniInputs(crateName, Input(prefix)), alnum).Ok?
    ensures SignaturesRead(Program(), REQUIREMENT, Input(prefix), alnum) && AllInvariant(REQUIREMENT)
    ensures KaniSays(Program(), REQUIREMENT, crateName, Input(prefix), alnum)
    ensures !RequirementHolds(Program(), REQUIREMENT, Input(prefix), alnum)
  {
    ItGates(alnum);
    ItLowers(prefix, alnum);
    ItsSignaturesAreRead(prefix, alnum);
    NothingToAssign(prefix, alnum);
    GroundIsFalse(prefix, alnum);
    HarnessesAgreeExactly(Program(), REQUIREMENT, crateName, Input(prefix), alnum);
    assert GROUND in REQUIREMENT.require && REQUIREMENT.require[0] == OVER_EMPTY;
    assert FailsUnreached(Program(), REQUIREMENT, Input(prefix), alnum) by {
      assert REQUIREMENT.require[1] == GROUND && |REQUIREMENT.require| == 2;
    }
  }
}
