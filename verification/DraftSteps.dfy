/**
 What single steps of the draft lifecycle do (`src/draft.rs`): the binding a grounding makes and when it is
 made, what a step leaves alone, and what a write-back stamps onto the item.
 */
module DraftSteps {
  import opened Basics
  import opened Text
  import opened Prl
  import opened Adapter
  import opened GroundingSchema
  import opened Drafts

  // ----- Grounding -----

  /** The two sides of the first `=` of a spec. */
  predicate Sides(spec: string, left: string, right: string) {
    spec == left + "=" + right && '=' !in left
  }

  /** The world of the first declared category; the code when none is declared. */
  predicate PrimaryWorld(req: Requirement, world: BindCategory) {
    match world
    case CodeWorld => req.category == [] || req.category[0] == Code
    case ModelWorld => req.category != [] && req.category[0] == Model
    case RuntimeWorld => req.category != [] && req.category[0] == Runtime
    case UiWorld => req.category != [] && req.category[0] == Ui
  }

  /** The fidelity asked for, as it parses; without one, how its world is looked at by default. */
  predicate FidelityIs(
    asked: Option<string>, parseFidelity: string -> Option<Fidelity>, world: BindCategory, fidelity: Fidelity)
  {
    match asked
    case Some(f) => parseFidelity(f) == Some(fidelity)
    case None =>
      && (fidelity == Observed <==> world == RuntimeWorld)
      && (fidelity == Probed <==> world == UiWorld)
  }

  ghost predicate Bindable(req: Requirement, symbol: string) {
    || (exists d :: d in req.vocabulary && NamesPredicate(d, symbol))
    || (symbol != "" && ((exists d :: d in req.vocabulary && SpeaksOf(d, symbol))
                         || exists p :: p in req.require && RangesOver(p, symbol)))
  }

  /** What a grounding asks of the draft, the spec and the candidate. */
  ghost predicate Groundable(
    gate: Gate, parseFidelity: string -> Option<Fidelity>, d: Draft, left: string, right: string,
    fidelity: Option<string>)
  {
    && Trim(left) != "" && Trim(right) != ""
    && d.candidate.Some?
    && gate(d.candidate.value).Ok?
    && Bindable(gate(d.candidate.value).value.requirement, Trim(left))
    && (fidelity.Some? ==> parseFidelity(fidelity.value).Some?)
  }

  lemma {:induction false} NoSidesNoSplit(spec: string)
    ensures SplitOnce(spec).None? <==> '=' !in spec
  {
    if spec != "" && spec[0] != '=' {
      NoSidesNoSplit(spec[1..]);
      assert spec == [spec[0]] + spec[1..];
    }
  }

  lemma SplitIs(spec: string, left: string, right: string)
    ensures Sides(spec, left, right) <==> SplitOnce(spec) == Some((left, right))
  {
    if Sides(spec, left, right) {
      assert spec[|left|] == '=';
    }
    NoSidesNoSplit(spec);
    if SplitOnce(spec).Some? {
      SplitOnceFacts(spec);
      if Sides(spec, left, right) {
        CutAtFirst(left, right, SplitOnce(spec).value.0, SplitOnce(spec).value.1, '=');
      }
    }
  }

  /** A grounding goes through exactly when there is a draft and its candidate and the spec allow it. */
  lemma GroundsExactly(
    gate: Gate, parseFidelity: string -> Option<Fidelity>, state: DraftState, id: string, spec: string,
    fidelity: Option<string>)
    ensures Ground(gate, parseFidelity, state, id, spec, fidelity).Ok? <==>
              && id in state
              && exists l, r :: Sides(spec, l, r) && Groundable(gate, parseFidelity, state[id], l, r, fidelity)
  {
    if id in state {
      forall l, r ensures Sides(spec, l, r) <==> SplitOnce(spec) == Some((l, r)) {
        SplitIs(spec, l, r);
      }
      if state[id].candidate.Some? && gate(state[id].candidate.value).Ok? {
        forall symbol ensures var req := gate(state[id].candidate.value).value.requirement;
                              IsBindable(req, symbol) <==> Bindable(req, symbol) {
          BindableExactly(gate(state[id].candidate.value).value.requirement, symbol);
        }
      }
    }
  }

  /**
   What a grounding that goes through binds: the trimmed left side, to the trimmed right side, in the
   requirement's primary world. It replaces an earlier binding of the symbol and touches nothing else.
   */
  lemma GroundMakes(
    gate: Gate, parseFidelity: string -> Option<Fidelity>, state: DraftState, id: string, spec: string,
    fidelity: Option<string>, left: string, right: string)
    requires Ground(gate, parseFidelity, state, id, spec, fidelity).Ok? && Sides(spec, left, right)
    ensures var (next, b) := Ground(gate, parseFidelity, state, id, spec, fidelity).value;
            && b.symbol == Trim(left) && b.observable == Trim(right)
            && PrimaryWorld(gate(state[id].candidate.value).value.requirement, b.category)
            && FidelityIs(fidelity, parseFidelity, b.category, b.fidelity)
            && Rebound(state[id].bindings, next[id].bindings, b)
            && next == state[id := state[id].(bindings := next[id].bindings)]
  {
    SplitIs(spec, left, right);
    var (next, b) := Ground(gate, parseFidelity, state, id, spec, fidelity).value;
    var at := FilterKeeps(state[id].bindings, (c: Binding) => c.symbol != b.symbol);
    OthersAre(state[id].bindings, b.symbol, at);
    assert next[id].bindings == Others(state[id].bindings, b.symbol) + [b];
  }

  /** The earlier bindings of other symbols, in their order, and then the new one. */
  ghost predicate Rebound(before: seq<Binding>, after: seq<Binding>, b: Binding) {
    exists kept, at :: after == kept + [b] && OfOthers(before, kept, b.symbol, at)
  }

  ghost predicate OfOthers(before: seq<Binding>, kept: seq<Binding>, symbol: string, at: seq<nat>) {
    KeepsAt(before, kept, (c: Binding) => c.symbol != symbol, at)
  }

  lemma OthersAre(before: seq<Binding>, symbol: string, at: seq<nat>)
    requires KeepsAt(before, Others(before, symbol), (c: Binding) => c.symbol != symbol, at)
    ensures OfOthers(before, Others(before, symbol), symbol, at)
  {
  }

  // ----- What a step leaves alone -----

  function Target(step: Step): string {
    match step
    case DoOpen(item) => item.id
    case DoSetCandidate(item, _, _) => item.id
    case DoSetGate(id, _) => id
    case DoGround(id, _, _) => id
    case DoAdmit(id, _, _, _) => id
    case DoDiscard(id) => id
  }

  lemma OthersUntouched(
    gate: Gate, parseFidelity: string -> Option<Fidelity>, state: DraftState, step: Step, id: string)
    requires id != Target(step)
    ensures var after := Drafts.After(gate, parseFidelity, state, step);
            (id in after <==> id in state) && (id in state ==> after[id] == state[id])
  {
  }

  /** Only setting a candidate changes more than one part of a draft that is there, and it starts over. */
  lemma OnePartChanges(gate: Gate, parseFidelity: string -> Option<Fidelity>, state: DraftState, step: Step)
    requires Target(step) in state && !step.DoDiscard?
    ensures var id, after := Target(step), Drafts.After(gate, parseFidelity, state, step);
            && id in after
            && (step.DoOpen? ==> after[id] == state[id])
            && (step.DoSetGate? ==> after[id] == state[id].(gate := step.status))
            && (step.DoGround? ==> after[id] == state[id].(bindings := after[id].bindings))
            && (step.DoAdmit? ==> after[id] == state[id].(admission := after[id].admission))
            && (step.DoSetCandidate? ==>
                  after[id] == Draft(step.item.revision, Some(step.candidate), step.status, Pending, []))
  {
  }

  lemma NewDraftsAreEmpty(gate: Gate, parseFidelity: string -> Option<Fidelity>, state: DraftState, step: Step)
    requires Target(step) !in state && Target(step) in Drafts.After(gate, parseFidelity, state, step)
    ensures var d := Drafts.After(gate, parseFidelity, state, step)[Target(step)];
            && (step.DoOpen? || step.DoSetCandidate?)
            && d.revision == step.item.revision && d.admission == Pending && d.bindings == []
            && (step.DoOpen? ==> d.candidate == None && d.gate == Ungated)
            && (step.DoSetCandidate? ==> d.candidate == Some(step.candidate) && d.gate == step.status)
  {
  }

  // ----- What a write-back stamps -----

  /** The admission in force: it went through after the candidate was set at `k`, and none did since. */
  ghost predicate LastAdmission(gate: Gate, steps: seq<Step>, id: string, k: nat, j: nat) {
    && LastSet(steps, id, k) && k < j < |steps|
    && AdmitsCandidate(gate, steps[j], id, steps[k].candidate)
    && forall m :: j < m < |steps| ==> !AdmitsCandidate(gate, steps[m], id, steps[k].candidate)
  }

  predicate AdmittedBy(gate: Gate, candidate: string, step: Step, admission: Admission)
    requires step.DoAdmit?
  {
    && admission.Admitted? && gate(candidate).Ok?
    && admission.reviewer == step.reviewer && admission.atUnix == step.atUnix
    && (admission.review == Optional <==> gate(candidate).value.warnings == [])
  }

  lemma AdmissionStays(
    gate: Gate, parseFidelity: string -> Option<Fidelity>, state: DraftState, step: Step, id: string, candidate: string)
    requires id in state && state[id].candidate == Some(candidate)
    requires !Edits(step, id) && !AdmitsCandidate(gate, step, id, candidate)
    ensures var after := Drafts.After(gate, parseFidelity, state, step);
            id in after && after[id].admission == state[id].admission
  {
  }

  lemma AdmissionGoesThrough(
    gate: Gate, parseFidelity: string -> Option<Fidelity>, state: DraftState, step: Step, id: string, candidate: string)
    requires id in state && state[id].candidate == Some(candidate) && AdmitsCandidate(gate, step, id, candidate)
    ensures var after := Drafts.After(gate, parseFidelity, state, step);
            id in after && AdmittedBy(gate, candidate, step, after[id].admission)
  {
  }

  lemma {:induction false} AdmissionInForce(
    gate: Gate, parseFidelity: string -> Option<Fidelity>, steps: seq<Step>, id: string, k: nat, j: nat)
    requires LastAdmission(gate, steps, id, k, j)
    ensures var state := Run(gate, parseFidelity, steps);
            id in state && AdmittedBy(gate, steps[k].candidate, steps[j], state[id].admission)
    decreases |steps|
  {
    var last := |steps| - 1;
    var before := steps[..last];
    assert LastSet(before, id, k);
    DraftAfterLastSet(gate, parseFidelity, before, id, k);
    var state := Run(gate, parseFidelity, before);
    if j == last {
      AdmissionGoesThrough(gate, parseFidelity, state, steps[last], id, steps[k].candidate);
    } else {
      assert LastAdmission(gate, before, id, k, j);
      AdmissionInForce(gate, parseFidelity, before, id, k, j);
      AdmissionStays(gate, parseFidelity, state, steps[last], id, steps[k].candidate);
    }
  }

  lemma {:induction false} SomeLastAdmission(gate: Gate, steps: seq<Step>, id: string, k: nat, from: nat)
    returns (j: nat)
    requires LastSet(steps, id, k) && k < from <= |steps|
    requires exists m :: k < m < from && AdmitsCandidate(gate, steps[m], id, steps[k].candidate)
    requires forall m :: from <= m < |steps| ==> !AdmitsCandidate(gate, steps[m], id, steps[k].candidate)
    ensures LastAdmission(gate, steps, id, k, j)
  {
    j := from - 1;
    if !AdmitsCandidate(gate, steps[j], id, steps[k].candidate) {
      j := SomeLastAdmission(gate, steps, id, k, from - 1);
    }
  }

  /** A write-back stamps the candidate, and by whom, when and how it was last admitted. */
  lemma WritebackStamps(
    gate: Gate, parseFidelity: string -> Option<Fidelity>, steps: seq<Step>, item: Item, k: nat)
    returns (j: nat)
    requires LastSet(steps, item.id, k) && Writeback(Run(gate, parseFidelity, steps), item).Ok?
    ensures LastAdmission(gate, steps, item.id, k, j)
    ensures var note := Writeback(Run(gate, parseFidelity, steps), item).value;
            && note.status == "admitted-but-ungrounded"
            && note.prl == steps[k].candidate && note.sourceRevision == item.revision
            && note.reviewer == steps[j].reviewer && note.reviewedAtUnix == steps[j].atUnix
            && (note.review == Optional <==> gate(steps[k].candidate).value.warnings == [])
  {
    DraftAfterLastSet(gate, parseFidelity, steps, item.id, k);
    j := SomeLastAdmission(gate, steps, item.id, k, |steps|);
    AdmissionInForce(gate, parseFidelity, steps, item.id, k, j);
  }
}
