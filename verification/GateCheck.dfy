/** What the gate accepts of a parsed requirement (`src/prl/check.rs`, `src/prl/fragment.rs`). */
module GateCheck {
  import opened Text
  import opened Prl
  import opened ClaimVariables

  predicate SameDeclaredName(a: Decl, b: Decl) {
    !a.Identity? && !b.Identity? && a.name == b.name
  }

  predicate NoDuplicateDecl(vocabulary: seq<Decl>) {
    forall i, j | 0 <= i < j < |vocabulary| :: !SameDeclaredName(vocabulary[i], vocabulary[j])
  }

  /** A declared name is applied to what it declares; an undeclared one is bare and bound by the claim. */
  predicate AtomChecks(req: Requirement, binders: seq<Binder>, a: Atom) {
    match DeclaredParams(req.vocabulary, a.name)
    case Some(params) => |params| == |a.args|
    case None => a.args == [] && Binds(binders, a.name)
  }

  /** The check finds no error. */
  predicate Checks(req: Requirement, alnum: CharClass) {
    && req.require != []
    && NoDuplicateDecl(req.vocabulary)
    && forall prop <- req.require ::
         forall a <- PropertyAtoms(prop) :: AtomChecks(req, Binders(req, prop, alnum), a)
  }

  /** The engine of this category can express the pattern. */
  predicate Expressible(category: Category, pattern: Pattern) {
    match category
    case Code => IsInvariant(pattern)
    case Model => true
    case Runtime => !pattern.CanReach?
    case Ui => !pattern.CanReach?
  }

  predicate InFragment(req: Requirement) {
    forall category <- req.category :: forall prop <- req.require :: Expressible(category, prop.pattern)
  }

  /** The gate finds no error in what was parsed; its vacuity warnings refuse nothing. */
  predicate Gates(req: Requirement, alnum: CharClass) {
    Checks(req, alnum) && InFragment(req)
  }

  // ----- What the gate leaves, said of the requirement as it is written -----

  /** The atom applies what the vocabulary declares, or is a bare variable of the claim. */
  ghost predicate SpeaksSense(req: Requirement, prop: Property, a: Atom, alnum: CharClass) {
    || (exists k: nat :: Declares(req.vocabulary, a.name, k) && |req.vocabulary[k].params| == |a.args|)
    || (&& (forall d <- req.vocabulary :: !IsPredicate(d, a.name))
        && a.args == [] && IsBound(Binders(req, prop, alnum), a.name))
  }

  lemma AtomChecksIs(req: Requirement, prop: Property, a: Atom, alnum: CharClass)
    ensures AtomChecks(req, Binders(req, prop, alnum), a) <==> SpeaksSense(req, prop, a, alnum)
  {
    var binders := Binders(req, prop, alnum);
    var k := DeclaredParamsAre(req.vocabulary, a.name);
    forall j: nat | Declares(req.vocabulary, a.name, j)
      ensures DeclaredParams(req.vocabulary, a.name).Some? && j == k
    {
      assert req.vocabulary[j] in req.vocabulary;
    }
    if Binds(binders, a.name) {
      assert binders[FindBinder(binders, a.name).value] in binders;
    }
  }

  ghost predicate Names(d: Decl, name: string) {
    (d.Sort? || d.Event? || d.State?) && d.name == name
  }

  /**
   A parsed requirement gates exactly when it claims something, no two declarations share a name, every atom
   makes sense, the code is asked for invariants only, and only a model what can be reached.
   */
  lemma GatesExactly(req: Requirement, alnum: CharClass)
    ensures Gates(req, alnum) <==>
              && req.require != []
              && (forall i, j, name :: 0 <= i < j < |req.vocabulary| && Names(req.vocabulary[i], name) ==>
                    !Names(req.vocabulary[j], name))
              && (forall p, a :: p in req.require && a in PropertyAtoms(p) ==> SpeaksSense(req, p, a, alnum))
              && (Code in req.category ==> forall p <- req.require :: p.pattern.Always? || p.pattern.Never?)
              && (Runtime in req.category || Ui in req.category ==> forall p <- req.require :: !p.pattern.CanReach?)
  {
    forall p, a | p in req.require && a in PropertyAtoms(p)
      ensures AtomChecks(req, Binders(req, p, alnum), a) <==> SpeaksSense(req, p, a, alnum)
    {
      AtomChecksIs(req, p, a, alnum);
    }
    NoDuplicatesIs(req.vocabulary);
    InFragmentIs(req);
  }

  lemma NoDuplicatesIs(vocabulary: seq<Decl>)
    ensures NoDuplicateDecl(vocabulary) <==>
            forall i, j, name :: 0 <= i < j < |vocabulary| && Names(vocabulary[i], name) ==> !Names(vocabulary[j], name)
  {
    if !NoDuplicateDecl(vocabulary) {
      var i, j :| 0 <= i < j < |vocabulary| && SameDeclaredName(vocabulary[i], vocabulary[j]);
      assert Names(vocabulary[i], vocabulary[i].name) && Names(vocabulary[j], vocabulary[i].name);
    }
  }

  lemma InFragmentIs(req: Requirement)
    ensures InFragment(req) <==>
              && (Code in req.category ==> forall p <- req.require :: p.pattern.Always? || p.pattern.Never?)
              && (Runtime in req.category || Ui in req.category ==> forall p <- req.require :: !p.pattern.CanReach?)
  {
  }
}
