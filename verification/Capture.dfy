/**
 A requirement the gate accepts whose emitted claim holds of a subject of which the requirement, as
 the gate reads it, is false: `always (not on(flag) or flag)`, where `flag` is also a declared state.
 */
module Capture {
  import opened Basics
  import opened Text
  import opened Prl
  import opened Adapter
  import opened Lowering
  import opened LoweringConditions
  import opened Meaning
  import opened Harness
  import opened GateCheck

  const FLAG := Atom("flag", [], None)
  const ON_FLAG := Atom("on", ["flag"], None)
  const CLAIM := Or(Not(Apply(ON_FLAG)), Apply(FLAG))
  const PROPERTY := Property(None, Always(CLAIM), Globally)
  const REQUIREMENT := Requirement(
    "captured", [Code], [State("flag", []), State("on", [Param("x", "Flag")])], [PROPERTY])

  const AT_ROOT := CodeMatch("src/lib.rs", 1, Some([]))

  function Input(prefix: string): Inputs {
    Inputs(
      prefix,
      [Binding("on", CodeWorld, "id", Definitional),
       Binding("flag", CodeWorld, "no", Definitional),
       Binding("Flag", CodeWorld, "bool", Definitional)],
      map["on" := Resolved(AT_ROOT, [ByValue], Function), "flag" := Resolved(AT_ROOT, [], Function)],
      map["Flag" := Primitive("bool")])
  }

  /** `id` is the identity and `no()` is always false. */
  ghost function Program(): Subject<bool> {
    AllFalse().(free := (path: seq<string>) =>
      if path == ["id"] then Some(Fn([ByValue], (vs: seq<bool>) => |vs| == 1 && vs[0]))
      else if path == ["no"] then Some(Fn([], (vs: seq<bool>) => false))
      else None)
  }

  lemma UsesAre(alnum: CharClass)
    requires forall c <- "flag" :: alnum(c)
    ensures UsesOfAtom(DeclaredParams(REQUIREMENT.vocabulary, "on"), ON_FLAG.args, 0, alnum) ==
            [Use("flag", Some("Flag"))]
    ensures UsesOfAtom(DeclaredParams(REQUIREMENT.vocabulary, "flag"), FLAG.args, 0, alnum) == []
  {
    assert Trim("flag") == "flag" && Trim("Flag") == "Flag";
    assert IsVariable("flag", alnum);
    var params := DeclaredParams(REQUIREMENT.vocabulary, "on");
    assert params == Some([Param("x", "Flag")]) by {
      assert REQUIREMENT.vocabulary[1..][0] == State("on", [Param("x", "Flag")]);
    }
    assert UsesOfAtom(params, ON_FLAG.args, 1, alnum) == [];
  }

  lemma BindersAre(alnum: CharClass)
    requires forall c <- "flag" :: alnum(c)
    ensures Binders(REQUIREMENT, PROPERTY, alnum) == [Binder("flag", Some("Flag"), false)]
  {
    assert Trim("flag") == "flag" && Trim("Flag") == "Flag";
    assert IsVariable("flag", alnum);
    assert PropertyAtoms(PROPERTY) == [ON_FLAG, FLAG];
    var use := Use("flag", Some("Flag"));
    UsesAre(alnum);
    assert Uses(REQUIREMENT.vocabulary, [ON_FLAG, FLAG], alnum) == [use] by {
      assert [ON_FLAG, FLAG][1..] == [FLAG] && [FLAG][1..] == [];
      assert Uses(REQUIREMENT.vocabulary, [FLAG], alnum) == [];
    }
    assert NoteUse([], use) == [Binder("flag", Some("Flag"), false)];
    assert NoteUses([], [use]) == NoteUses(NoteUse([], use), []);
  }

  lemma TwoLetterItem(name: string)
    requires |name| == 2 && name[0] != ':' && !IsWhitespace(name[0]) && !IsWhitespace(name[1])
    ensures ItemName(name) == name
  {
    assert name[0..2][0] != "::"[0];
    assert LastSegmentFrom(name, 1) == name;
    TrimIdentity(name);
  }

  const BINDERS := [Binder("flag", Some("Flag"), false)]

  lemma InputFacts(prefix: string)
    ensures FindBinding(Input(prefix).bindings, "on") == Some(0)
    ensures FindBinding(Input(prefix).bindings, "flag") == Some(1)
    ensures FindBinding(Input(prefix).bindings, "Flag") == Some(2)
    ensures FindBinder(BINDERS, "flag") == Some(0)
    ensures Trim("flag") == "flag"
  {
  }

  lemma ItLowers(prefix: string)
    ensures Lowerable(PROPERTY, BINDERS, Input(prefix))
  {
    InputFacts(prefix);
    assert ExprAtoms(CLAIM) == [ON_FLAG, FLAG];
    assert CallLowers(ON_FLAG, BINDERS, Input(prefix)) && ReadsAsVariable(FLAG, BINDERS);
    assert forall b :: b in BINDERS <==> b == BINDERS[0];
    assert SortLowers(BINDERS[0], Input(prefix)) && IsBoolSorted(BINDERS[0], Input(prefix));
  }

  lemma OnFlagTruth(prefix: string, reading: Reading, env: Env<bool>)
    requires "flag" in env
    ensures AtomTruth(Program(), reading, REQUIREMENT.vocabulary, ON_FLAG, BINDERS, Input(prefix), env) ==
            Some(env["flag"])
  {
    InputFacts(prefix);
    TwoLetterItem("id");
    assert [] + ["id"] == ["id"];
    assert TrimmedArgs(ON_FLAG) == ["flag"] && Values(["flag"], env) == [env["flag"]];
  }

  lemma FlagTruth(prefix: string, reading: Reading, env: Env<bool>)
    requires "flag" in env
    ensures AtomTruth(Program(), reading, REQUIREMENT.vocabulary, FLAG, BINDERS, Input(prefix), env) ==
            Some(reading == BinderWins && env["flag"])
  {
    InputFacts(prefix);
    TwoLetterItem("no");
    assert [] + ["no"] == ["no"] && ["no"] != ["id"];
    assert TrimmedArgs(FLAG) == [] && Values([], env) == [];
  }

  lemma AtomTruths(prefix: string, reading: Reading, env: Env<bool>)
    requires "flag" in env
    ensures AtomTruth(Program(), reading, REQUIREMENT.vocabulary, ON_FLAG, BINDERS, Input(prefix), env) ==
            Some(env["flag"])
    ensures AtomTruth(Program(), reading, REQUIREMENT.vocabulary, FLAG, BINDERS, Input(prefix), env) ==
            Some(reading == BinderWins && env["flag"])
  {
    OnFlagTruth(prefix, reading, env);
    FlagTruth(prefix, reading, env);
  }

  lemma AtomsAreRead(prefix: string, env: Env<bool>)
    ensures AtomRead(Program(), ON_FLAG, Input(prefix), env) && AtomRead(Program(), FLAG, Input(prefix), env)
  {
    InputFacts(prefix);
    TwoLetterItem("id");
    TwoLetterItem("no");
    assert [] + ["id"] == ["id"] && [] + ["no"] == ["no"] && ["no"] != ["id"];
  }

  lemma ClaimAtoms(a: Atom)
    ensures a in ExprAtoms(CLAIM) <==> a == ON_FLAG || a == FLAG
  {
    assert ExprAtoms(CLAIM) == [ON_FLAG, FLAG];
  }

  lemma ClaimIsRead(s: Subject<bool>, inp: Inputs, binders: seq<Binder>, env: Env<bool>)
    requires AtomRead(s, ON_FLAG, inp, env) && AtomRead(s, FLAG, inp, env)
    ensures ClaimRead(s, CLAIM, binders, inp, env)
  {
    forall a | a in ExprAtoms(CLAIM) ensures AtomRead(s, a, inp, env) {
      ClaimAtoms(a);
    }
  }

  lemma ItsSignaturesAreRead(prefix: string, alnum: CharClass)
    ensures SignaturesRead(Program(), REQUIREMENT, Input(prefix), alnum)
  {
    var s, inp, binders := Program(), Input(prefix), Binders(REQUIREMENT, PROPERTY, alnum);
    forall env: Env<bool> ensures ClaimRead(s, CLAIM, binders, inp, env) {
      AtomsAreRead(prefix, env);
      ClaimIsRead(s, inp, binders, env);
    }
  }

  lemma ClaimUnfolds(reading: Reading, inp: Inputs, env: Env<bool>)
    ensures ClaimTruth(Program(), reading, REQUIREMENT, PROPERTY.pattern, BINDERS, inp, env) ==
            OrOf(Negated(AtomTruth(Program(), reading, REQUIREMENT.vocabulary, ON_FLAG, BINDERS, inp, env)),
                 AtomTruth(Program(), reading, REQUIREMENT.vocabulary, FLAG, BINDERS, inp, env))
  {
    var s, v := Program(), REQUIREMENT.vocabulary;
    assert ExprTruth(s, reading, v, Apply(ON_FLAG), BINDERS, inp, env) ==
           AtomTruth(s, reading, v, ON_FLAG, BINDERS, inp, env);
    assert ExprTruth(s, reading, v, Apply(FLAG), BINDERS, inp, env) ==
           AtomTruth(s, reading, v, FLAG, BINDERS, inp, env);
    assert ExprTruth(s, reading, v, Not(Apply(ON_FLAG)), BINDERS, inp, env) ==
           Negated(ExprTruth(s, reading, v, Apply(ON_FLAG), BINDERS, inp, env));
    assert ExprTruth(s, reading, v, CLAIM, BINDERS, inp, env) ==
           OrOf(ExprTruth(s, reading, v, Not(Apply(ON_FLAG)), BINDERS, inp, env),
                ExprTruth(s, reading, v, Apply(FLAG), BINDERS, inp, env));
  }

  lemma TrueAsEmitted(prefix: string, env: Env<bool>)
    requires Assignment(Program(), BINDERS, Input(prefix), env)
    ensures ClaimTruth(Program(), BinderWins, REQUIREMENT, PROPERTY.pattern, BINDERS, Input(prefix), env) == Some(true)
  {
    assert BINDERS[0] in BINDERS;
    assert BinderFits(Program(), BINDERS[0], Input(prefix), env);
    AtomTruths(prefix, BinderWins, env);
    ClaimUnfolds(BinderWins, Input(prefix), env);
  }

  lemma FalseAsDeclared(prefix: string)
    ensures Assignment(Program(), BINDERS, Input(prefix), map["flag" := true])
    ensures ClaimTruth(Program(), DeclarationWins, REQUIREMENT, PROPERTY.pattern, BINDERS, Input(prefix),
                       map["flag" := true]) == Some(false)
  {
    InputFacts(prefix);
    assert BINDERS[0] in BINDERS && Binds(BINDERS, "flag");
    AtomTruths(prefix, DeclarationWins, map["flag" := true]);
    ClaimUnfolds(DeclarationWins, Input(prefix), map["flag" := true]);
  }

  lemma ItGates(alnum: CharClass)
    ensures Gates(REQUIREMENT, alnum)
  {
    assert PropertyAtoms(PROPERTY) == [ON_FLAG, FLAG];
    assert DeclaredParams(REQUIREMENT.vocabulary, "on") == Some([Param("x", "Flag")]) by {
      assert REQUIREMENT.vocabulary[1..][0] == State("on", [Param("x", "Flag")]);
    }
    assert DeclaredParams(REQUIREMENT.vocabulary, "flag") == Some([]);
  }

  /**
   The gate accepts this requirement and reads its last `flag` as the declared state; the emitted
   text reads it as the variable. An engine proves the text, and the requirement is false.
   */
  lemma CaptureProvesAFalseClaim(prefix: string, alnum: CharClass)
    requires forall c <- "flag" :: alnum(c)
    ensures Gates(REQUIREMENT, alnum)
    ensures LowerProperty(REQUIREMENT, PROPERTY, Input(prefix), alnum).Ok?
    ensures SignaturesRead(Program(), REQUIREMENT, Input(prefix), alnum)
    ensures ClosureHolds(Program(), REQUIREMENT, PROPERTY, Input(prefix), alnum)
    ensures exists env: Env<bool> ::
              && Assignment(Program(), Binders(REQUIREMENT, PROPERTY, alnum), Input(prefix), env)
              && ClaimTruth(Program(), DeclarationWins, REQUIREMENT, PROPERTY.pattern,
                            Binders(REQUIREMENT, PROPERTY, alnum), Input(prefix), env) == Some(false)
  {
    BindersAre(alnum);
    ItGates(alnum);
    ItLowers(prefix);
    LowersExactlyWhen(REQUIREMENT, PROPERTY, Input(prefix), alnum);
    ItsSignaturesAreRead(prefix, alnum);
    forall env: Env<bool> | Assignment(Program(), BINDERS, Input(prefix), env) {
      TrueAsEmitted(prefix, env);
    }
    FalseAsDeclared(prefix);
  }
}
