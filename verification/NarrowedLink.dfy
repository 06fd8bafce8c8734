/**
 What happens to the mirror channel when a link is only discharged under a precondition, shown on the
 smallest claim over a method: `always p(u)`, where `u` ranges over a type `T` of the subject, `p` is bound
 to `T::ok`, and the mirror of that method is staged. Values are of any type with two that stand for
 true and false.
 */
module NarrowedLink {
  import opened Basics
  import opened Text
  import opened Prl
  import opened Adapter
  import opened Lowering
  import opened LoweringConditions
  import opened Meaning
  import opened Harness
  import opened Mirrors

  const ATOM := Atom("p", ["u"], None)
  const PROPERTY := Property(None, Always(Apply(ATOM)), Globally)
  const REQUIREMENT := Requirement("r", [Code], [State("p", [Param("u", "F")])], [PROPERTY])
  const BINDERS := [Binder("u", Some("F"), false)]

  const AT := CodeMatch("a.rs", 1, Some([]))
  const RESOLUTION := Resolved(AT, [ByRef], Method("ok", None))
  const SOURCES: map<string, string> := map["a.rs" := "fn ok_logic"]
  const SORT := DeclaredRef(["T"])

  function Input(prefix: string): Inputs {
    Inputs(
      prefix,
      [Binding("p", CodeWorld, "T::ok", Definitional), Binding("F", CodeWorld, "T", Definitional)],
      map["p" := RESOLUTION],
      map["F" := Declared(AT)])
  }

  /** Only the members of `T` have the method, which answers `pre`; its mirror claims true of everything. */
  ghost function Program<V(!new)>(yes: V, no: V, member: V -> bool, pre: V -> bool): Subject<V> {
    Subject(
      (path: seq<string>) => if path == ["ok_logic"] then Some(Fn([ByRef], (vs: seq<V>) => yes)) else None,
      (v: V, name: string) =>
        if member(v) && name == "ok"
        then Some(Fn([ByRef], (vs: seq<V>) => if |vs| == 1 && pre(vs[0]) then yes else no))
        else None,
      (ty: seq<string>, tr: seq<string>, name: string) => None,
      (en: seq<string>, variant: string, v: V) => false,
      (v: V) => if v == yes then Some(true) else if v == no then Some(false) else None,
      (ty: TypeRef, v: V) => ty == SORT && member(v))
  }

  // ----- The claim, lowered both ways -----

  lemma BindersAre(alnum: CharClass)
    requires alnum('u')
    ensures Binders(REQUIREMENT, PROPERTY, alnum) == BINDERS
  {
    assert Trim("u") == "u" && Trim("F") == "F";
    var params := DeclaredParams(REQUIREMENT.vocabulary, "p");
    assert UsesOfAtom(params, ATOM.args, 0, alnum) == [Use("u", Some("F"))] by {
      assert UsesOfAtom(params, ATOM.args, 1, alnum) == [];
    }
    var use := Use("u", Some("F"));
    assert PropertyAtoms(PROPERTY) == [ATOM];
    assert Uses(REQUIREMENT.vocabulary, [ATOM], alnum) == [use] by {
      assert [ATOM][1..] == [];
    }
    assert NoteUses([], [use]) == NoteUses(NoteUse([], use), []);
  }

  lemma Names()
    ensures ItemName("T") == "T" && MirrorName("ok") == "ok_logic" && ItemName("ok_logic") == "ok_logic"
    ensures Trim("u") == "u" && Trim("T") == "T"
  {
    assert "ok"[0..2][0] != "::"[0];
    assert LastSegmentFrom("ok", 1) == "ok";
    MirrorNameIsItem("ok");
  }

  lemma Lookups(prefix: string)
    ensures FindBinding(Input(prefix).bindings, "p") == Some(0) && FindBinding(Input(prefix).bindings, "F") == Some(1)
    ensures FindBinder(BINDERS, "u") == Some(0) && FindBinder(BINDERS, "p") == None
  {
  }

  lemma MirrorIsStaged()
    ensures Staged(SOURCES, "a.rs", "ok_logic")
  {
    assert "fn " + "ok_logic" == "fn ok_logic";
    assert MatchesAt("fn ok_logic", 0, "fn ok_logic");
  }

  lemma Redirected(prefix: string)
    ensures MirrorOf("p", Input(prefix).bindings, Input(prefix).resolutions, SOURCES) == Some("ok_logic")
    ensures FindBinding(Input(prefix).bindings, "p") == Some(0) && FindBinding(Input(prefix).bindings, "F") == Some(1)
    ensures FindBinder(BINDERS, "u") == Some(0) && FindBinder(BINDERS, "p") == None
  {
    Names();
    Lookups(prefix);
    MirrorIsStaged();
  }

  lemma MirroredInput(prefix: string)
    ensures var inp := Mirrored(Input(prefix), SOURCES);
            && FindBinding(inp.bindings, "p") == Some(0) && inp.bindings[0].observable == "ok_logic"
            && FindBinding(inp.bindings, "F") == Some(1) && inp.bindings[1].observable == "T"
            && "p" in inp.resolutions && inp.resolutions["p"] == Resolved(AT, [ByRef], Function)
            && inp.sorts == Input(prefix).sorts
  {
    Redirected(prefix);
    MirroredLookups(Input(prefix), SOURCES, "p");
    MirroredLookups(Input(prefix), SOURCES, "F");
  }

  lemma BothLower(prefix: string, alnum: CharClass)
    requires alnum('u')
    ensures LowerProperty(REQUIREMENT, PROPERTY, Input(prefix), alnum).Ok?
    ensures LowerProperty(REQUIREMENT, PROPERTY, Mirrored(Input(prefix), SOURCES), alnum).Ok?
  {
    BindersAre(alnum);
    MethodLowers(prefix);
    MirrorLowers(prefix);
    LowersExactlyWhen(REQUIREMENT, PROPERTY, Input(prefix), alnum);
    LowersExactlyWhen(REQUIREMENT, PROPERTY, Mirrored(Input(prefix), SOURCES), alnum);
  }

  /** The claim lowers over any input where `p` and `F` are found and resolved. */
  lemma LowersOver(inp: Inputs)
    requires FindBinding(inp.bindings, "p").Some? && FindBinding(inp.bindings, "F").Some?
    requires "p" in inp.resolutions && inp.resolutions["p"].Resolved? && |inp.resolutions["p"].params| == 1
    requires FormReachable(inp.resolutions["p"].form, inp.resolutions["p"].at, 1)
    requires "F" in inp.sorts && TypeReachable(inp.sorts["F"])
    ensures Lowerable(PROPERTY, BINDERS, inp)
  {
    Names();
    assert FindBinder(BINDERS, "u") == Some(0) && FindBinder(BINDERS, "p") == None;
    assert ExprAtoms(Apply(ATOM)) == [ATOM];
    assert CallLowers(ATOM, BINDERS, inp);
    assert forall b :: b in BINDERS <==> b == BINDERS[0];
  }

  lemma MethodLowers(prefix: string)
    ensures Lowerable(PROPERTY, BINDERS, Input(prefix))
  {
    Lookups(prefix);
    LowersOver(Input(prefix));
  }

  lemma MirrorLowers(prefix: string)
    ensures Lowerable(PROPERTY, BINDERS, Mirrored(Input(prefix), SOURCES))
  {
    MirroredInput(prefix);
    LowersOver(Mirrored(Input(prefix), SOURCES));
  }

  // ----- What each closure says -----

  ghost function MethodTruth<V>(s: Subject<V>, v: V): Option<bool> {
    Truth(s, Meaning.Applied(s.inherent(v, "ok"), [v]))
  }

  ghost function MirrorTruth<V>(s: Subject<V>, v: V): Option<bool> {
    Truth(s, Meaning.Applied(s.free(["ok_logic"]), [v]))
  }

  lemma ArgumentValues<V>(env: Env<V>)
    ensures TrimmedArgs(ATOM) == ["u"] && (AllIn(["u"], env) <==> "u" in env)
    ensures "u" in env ==> Values(["u"], env) == [env["u"]]
  {
    Names();
    assert AllIn(["u"], env) ==> ["u"][0] in env;
  }

  /** What the claim says over any input that binds and resolves `p`. */
  lemma ClaimIs<V>(s: Subject<V>, inp: Inputs, env: Env<V>)
    requires "u" in env && FindBinding(inp.bindings, "p") == Some(0) && "p" in inp.resolutions
    ensures ClaimTruth(s, BinderWins, REQUIREMENT, PROPERTY.pattern, BINDERS, inp, env) ==
            PredicateTruth(s, inp.bindings[0].observable, inp.resolutions["p"], [env["u"]])
  {
    ArgumentValues(env);
    assert FindBinder(BINDERS, "p") == None;
    assert AtomTruth(s, BinderWins, REQUIREMENT.vocabulary, ATOM, BINDERS, inp, env) ==
           PredicateTruth(s, inp.bindings[0].observable, inp.resolutions["p"], Values(["u"], env));
  }

  lemma MethodClaim<V>(s: Subject<V>, prefix: string, env: Env<V>)
    requires "u" in env
    ensures ClaimTruth(s, BinderWins, REQUIREMENT, PROPERTY.pattern, BINDERS, Input(prefix), env) ==
            MethodTruth(s, env["u"])
  {
    Lookups(prefix);
    ClaimIs(s, Input(prefix), env);
  }

  lemma MirrorClaim<V>(s: Subject<V>, prefix: string, env: Env<V>)
    requires "u" in env
    ensures ClaimTruth(s, BinderWins, REQUIREMENT, PROPERTY.pattern, BINDERS, Mirrored(Input(prefix), SOURCES), env) ==
            MirrorTruth(s, env["u"])
  {
    MirroredInput(prefix);
    ClaimIs(s, Mirrored(Input(prefix), SOURCES), env);
    MirrorCall(s, env["u"]);
  }

  lemma MirrorCall<V>(s: Subject<V>, v: V)
    ensures PredicateTruth(s, "ok_logic", Resolved(AT, [ByRef], Function), [v]) == MirrorTruth(s, v)
  {
    Names();
    assert [] + ["ok_logic"] == ["ok_logic"];
  }

  /** Both closures range over `u` alone, and over every value of `T`. */
  lemma AssignmentIs<V>(s: Subject<V>, inp: Inputs, env: Env<V>)
    requires FindBinding(inp.bindings, "F") == Some(1) && inp.bindings[1].observable == "T"
    requires inp.sorts == map["F" := Declared(AT)]
    ensures Assignment(s, BINDERS, inp, env) <==> env.Keys == {"u"} && s.inhabits(SORT, env["u"])
  {
    Names();
    var b := BINDERS[0];
    assert SortRef(b, inp) == Some(SORT) by { assert [] + ["T"] == ["T"]; }
    assert forall x :: x in BINDERS <==> x == b;
    assert forall k :: Binds(BINDERS, k) <==> k == "u" by { assert b in BINDERS; }
    assert BinderFits(s, b, inp, env) <==> "u" in env && s.inhabits(SORT, env["u"]);
    assert env.Keys == {"u"} <==> "u" in env && forall k :: k in env ==> k == "u";
  }

  lemma ClosureIs<V(!new)>(s: Subject<V>, inp: Inputs, says: V -> bool, alnum: CharClass)
    requires alnum('u')
    requires FindBinding(inp.bindings, "F") == Some(1) && inp.bindings[1].observable == "T"
    requires inp.sorts == map["F" := Declared(AT)]
    requires forall env: Env<V> | "u" in env ::
               says(env["u"]) <==>
               ClaimTruth(s, BinderWins, REQUIREMENT, PROPERTY.pattern, BINDERS, inp, env) == Some(true)
    ensures ClosureHolds(s, REQUIREMENT, PROPERTY, inp, alnum) <==> forall v | s.inhabits(SORT, v) :: says(v)
  {
    BindersAre(alnum);
    if ClosureHolds(s, REQUIREMENT, PROPERTY, inp, alnum) {
      forall v | s.inhabits(SORT, v) ensures says(v) {
        var env: Env<V> := map["u" := v];
        AssignmentIs(s, inp, env);
        assert env["u"] == v;
      }
    }
    if forall v | s.inhabits(SORT, v) :: says(v) {
      forall env: Env<V> | Assignment(s, BINDERS, inp, env)
        ensures ClaimTruth(s, BinderWins, REQUIREMENT, PROPERTY.pattern, BINDERS, inp, env) == Some(true)
      {
        AssignmentIs(s, inp, env);
        assert says(env["u"]);
      }
    }
  }

  lemma MethodClosureIs<V(!new)>(s: Subject<V>, prefix: string, alnum: CharClass)
    requires alnum('u')
    ensures ClosureHolds(s, REQUIREMENT, PROPERTY, Input(prefix), alnum) <==>
            forall v | s.inhabits(SORT, v) :: MethodTruth(s, v) == Some(true)
  {
    Redirected(prefix);
    forall env: Env<V> | "u" in env
      ensures ClaimTruth(s, BinderWins, REQUIREMENT, PROPERTY.pattern, BINDERS, Input(prefix), env) ==
              MethodTruth(s, env["u"])
    {
      MethodClaim(s, prefix, env);
    }
    ClosureIs(s, Input(prefix), (v: V) => MethodTruth(s, v) == Some(true), alnum);
  }

  lemma MirrorClosureIs<V(!new)>(s: Subject<V>, prefix: string, alnum: CharClass)
    requires alnum('u')
    ensures ClosureHolds(s, REQUIREMENT, PROPERTY, Mirrored(Input(prefix), SOURCES), alnum) <==>
            forall v | s.inhabits(SORT, v) :: MirrorTruth(s, v) == Some(true)
  {
    MirroredInput(prefix);
    var mirrored := Mirrored(Input(prefix), SOURCES);
    forall env: Env<V> | "u" in env
      ensures ClaimTruth(s, BinderWins, REQUIREMENT, PROPERTY.pattern, BINDERS, mirrored, env) ==
              MirrorTruth(s, env["u"])
    {
      MirrorClaim(s, prefix, env);
    }
    ClosureIs(s, Mirrored(Input(prefix), SOURCES), (v: V) => MirrorTruth(s, v) == Some(true), alnum);
  }

  // ----- The link, narrowed -----

  /** The link of the mirror, discharged for the values of `T` a precondition lets in. */
  ghost predicate LinkedUnder<V(!new)>(s: Subject<V>, pre: V -> bool) {
    LinkedWhere(s, "T::ok", RESOLUTION, "ok_logic",
                (vs: seq<V>) => |vs| == 1 && s.inhabits(SORT, vs[0]) && pre(vs[0]))
  }

  /** A subject whose `T` has these members, on which the narrowed link makes the prover accept a false claim. */
  ghost predicate Misleads<V(!new)>(
    s: Subject<V>, member: V -> bool, pre: V -> bool, prefix: string, alnum: CharClass)
  {
    && (forall v :: s.inhabits(SORT, v) <==> member(v))
    && ClosureRead(s, REQUIREMENT, PROPERTY, Input(prefix), alnum)
    && LinkedUnder(s, pre)
    && ClosureHolds(s, REQUIREMENT, PROPERTY, Mirrored(Input(prefix), SOURCES), alnum)
    && !ClosureHolds(s, REQUIREMENT, PROPERTY, Input(prefix), alnum)
  }

  lemma ProgramIsRead<V(!new)>(
    yes: V, no: V, member: V -> bool, pre: V -> bool, prefix: string, alnum: CharClass)
    ensures ClosureRead(Program(yes, no, member, pre), REQUIREMENT, PROPERTY, Input(prefix), alnum)
  {
    Redirected(prefix);
    assert ExprAtoms(Apply(ATOM)) == [ATOM];
  }

  lemma ProgramFits<V(!new)>(yes: V, no: V, member: V -> bool, pre: V -> bool)
    requires yes != no
    ensures var s := Program(yes, no, member, pre);
            && LinkedUnder(s, pre)
            && (forall v :: MirrorTruth(s, v) == Some(true))
            && (forall v | member(v) :: MethodTruth(s, v) == Some(pre(v)))
  {
    Names();
    assert [] + ["ok_logic"] == ["ok_logic"];
  }

  lemma ExcludedInputMisleads<V(!new)>(
    yes: V, no: V, member: V -> bool, pre: V -> bool, v: V, prefix: string, alnum: CharClass)
    requires alnum('u') && yes != no && member(v) && !pre(v)
    ensures Misleads(Program(yes, no, member, pre), member, pre, prefix, alnum)
  {
    var s := Program(yes, no, member, pre);
    ProgramIsRead(yes, no, member, pre, prefix, alnum);
    ProgramFits(yes, no, member, pre);
    MethodClosureIs(s, prefix, alnum);
    MirrorClosureIs(s, prefix, alnum);
    assert s.inhabits(SORT, v) && MethodTruth(s, v) == Some(false);
  }

  lemma FullLinkHolds<V(!new)>(s: Subject<V>, pre: V -> bool, prefix: string, env: Env<V>)
    requires LinkedUnder(s, pre) && forall v | s.inhabits(SORT, v) :: pre(v)
    requires Assignment(s, BINDERS, Input(prefix), env)
    ensures AtomLinked(s, ATOM, Input(prefix), SOURCES, env)
  {
    Redirected(prefix);
    AssignmentIs(s, Input(prefix), env);
    ArgumentValues(env);
  }

  /** A link that covers every value of `T` is all the mirror channel asks for. */
  lemma FullLinkIsTrusted<V(!new)>(s: Subject<V>, pre: V -> bool, prefix: string, alnum: CharClass)
    requires alnum('u') && LinkedUnder(s, pre) && forall v | s.inhabits(SORT, v) :: pre(v)
    ensures ChannelTrusted(s, REQUIREMENT, Input(prefix), SOURCES, alnum)
  {
    BindersAre(alnum);
    Redirected(prefix);
    assert forall b :: b in BINDERS <==> b == BINDERS[0];
    assert ExprAtoms(Apply(ATOM)) == [ATOM];
    forall env: Env<V> | Assignment(s, BINDERS, Input(prefix), env)
      ensures AtomLinked(s, ATOM, Input(prefix), SOURCES, env)
    {
      FullLinkHolds(s, pre, prefix, env);
    }
  }

  /**
   A precondition on a mirrored method lets a false claim be proved of some subject exactly when it
   excludes some value of the sort. That is why contracts are never drafted for the dialect that uses mirrors.
   */
  lemma NarrowedLinkIsExact<V(!new)>(
    yes: V, no: V, member: V -> bool, pre: V -> bool, prefix: string, alnum: CharClass)
    requires alnum('u') && yes != no
    ensures LowerProperty(REQUIREMENT, PROPERTY, Input(prefix), alnum).Ok?
    ensures LowerProperty(REQUIREMENT, PROPERTY, Mirrored(Input(prefix), SOURCES), alnum).Ok?
    ensures (exists s: Subject<V> :: Misleads(s, member, pre, prefix, alnum)) <==> exists v :: member(v) && !pre(v)
  {
    BothLower(prefix, alnum);
    if v :| member(v) && !pre(v) {
      ExcludedInputMisleads(yes, no, member, pre, v, prefix, alnum);
    } else {
      forall s: Subject<V> ensures !Misleads(s, member, pre, prefix, alnum) {
        NeverMisleads(s, member, pre, prefix, alnum);
      }
    }
  }

  lemma NeverMisleads<V(!new)>(s: Subject<V>, member: V -> bool, pre: V -> bool, prefix: string, alnum: CharClass)
    requires alnum('u') && forall v | member(v) :: pre(v)
    ensures !Misleads(s, member, pre, prefix, alnum)
  {
    if Misleads(s, member, pre, prefix, alnum) {
      BothLower(prefix, alnum);
      FullLinkIsTrusted(s, pre, prefix, alnum);
      assert PROPERTY in REQUIREMENT.require;
      MirroredClosure(s, REQUIREMENT, PROPERTY, Input(prefix), SOURCES, alnum);
    }
  }
}
