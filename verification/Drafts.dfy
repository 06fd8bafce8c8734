/**
 The draft lifecycle (`src/draft.rs`). Every transition returns a new state. The mechanical gate is a
 parameter: any function from candidate text to a requirement with warnings, or to a refusal.
 */
module Drafts {
  import opened Basics
  import opened Text
  import opened Prl
  import opened Adapter
  import opened GroundingSchema

  datatype GateStatus = Ungated | Passed(warnings: seq<string>) | Failed(errors: seq<string>)

  datatype ReviewTier = Mandatory | Optional

  datatype Admission = Pending | Admitted(review: ReviewTier, reviewer: string, atUnix: int)

  datatype Draft = Draft(
    revision: string, candidate: Option<string>, gate: GateStatus, admission: Admission, bindings: seq<Binding>)

  type DraftState = map<string, Draft>

  datatype Item = Item(id: string, revision: string)

  datatype GateOutcome = GateOutcome(requirement: Requirement, warnings: seq<string>)

  type Gate = string -> Result<GateOutcome, seq<string>>

  datatype Annotation = Annotation(
    status: string, prl: string, review: ReviewTier, reviewer: string, reviewedAtUnix: int, sourceRevision: string)

  datatype DraftError =
    | NoDraft
    | NoCandidate
    | DoesNotGate
    | NotConfirmed
    | MalformedSpec
    | NotBindable
    | UnknownFidelity
    | NotAdmitted
    | Stale

  // ----- Transitions -----

  /** Additive: an existing draft is left as it is. */
  function OpenDraft(state: DraftState, item: Item): DraftState {
    if item.id in state then state else state[item.id := Draft(item.revision, None, Ungated, Pending, [])]
  }

  function SetCandidate(state: DraftState, item: Item, candidate: string, gate: GateStatus): DraftState {
    state[item.id := Draft(item.revision, Some(candidate), gate, Pending, [])]
  }

  function SetGate(state: DraftState, id: string, gate: GateStatus): DraftState {
    if id in state then state[id := state[id].(gate := gate)] else state
  }

  function Others(bindings: seq<Binding>, symbol: string): seq<Binding> {
    Filter(bindings, (b: Binding) => b.symbol != symbol)
  }

  function SetBinding(state: DraftState, id: string, binding: Binding): DraftState {
    if id in state
    then state[id := state[id].(bindings := Others(state[id].bindings, binding.symbol) + [binding])]
    else state
  }

  function Admit(state: DraftState, id: string, review: ReviewTier, reviewer: string, atUnix: int): DraftState {
    if id in state then state[id := state[id].(admission := Admitted(review, reviewer, atUnix))] else state
  }

  function Tier(outcome: GateOutcome): ReviewTier {
    if outcome.warnings == [] then Optional else Mandatory
  }

  function AdmitGated(gate: Gate, state: DraftState, id: string, reviewer: string, confirmed: bool, atUnix: int)
    : Result<(DraftState, ReviewTier), DraftError>
  {
    if id !in state then Err(NoDraft)
    else
      match state[id].candidate
      case None => Err(NoCandidate)
      case Some(candidate) =>
        match gate(candidate)
        case Err(_) => Err(DoesNotGate)
        case Ok(outcome) =>
          var tier := Tier(outcome);
          if tier == Mandatory && !confirmed then Err(NotConfirmed)
          else Ok((Admit(state, id, tier, reviewer, atUnix), tier))
  }

  function IsStale(draft: Draft, item: Item): bool {
    draft.revision != item.revision
  }

  /** The annotation a write-back would stamp onto the item, or why it is refused. */
  function Writeback(state: DraftState, item: Item): Result<Annotation, DraftError> {
    if item.id !in state then Err(NoDraft)
    else
      var draft := state[item.id];
      match draft.admission
      case Pending => Err(NotAdmitted)
      case Admitted(review, reviewer, atUnix) =>
        if IsStale(draft, item) then Err(Stale)
        else
          Ok(Annotation(
            "admitted-but-ungrounded",
            match draft.candidate case None => "" case Some(c) => c,
            review, reviewer, atUnix, draft.revision))
  }

  function Discard(state: DraftState, id: string): DraftState {
    state - {id}
  }

  /** The text before and after the first `=`. */
  function SplitOnce(spec: string): Option<(string, string)> {
    if spec == "" then None
    else if spec[0] == '=' then Some(("", spec[1..]))
    else
      match SplitOnce(spec[1..])
      case None => None
      case Some((a, b)) => Some(([spec[0]] + a, b))
  }

  /** `parseFidelity` is `Fidelity::parse`, any reading of the fidelity labels. */
  function Ground(
    gate: Gate, parseFidelity: string -> Option<Fidelity>,
    state: DraftState, id: string, spec: string, fidelity: Option<string>)
    : Result<(DraftState, Binding), DraftError>
  {
    if id !in state then Err(NoDraft)
    else if state[id].candidate.None? then Err(NoCandidate)
    else
      match SplitOnce(spec)
      case None => Err(MalformedSpec)
      case Some((left, right)) =>
        var symbol, observable := Trim(left), Trim(right);
        if symbol == "" || observable == "" then Err(MalformedSpec)
        else
          match gate(state[id].candidate.value)
          case Err(_) => Err(DoesNotGate)
          case Ok(outcome) =>
            if !IsBindable(outcome.requirement, symbol) then Err(NotBindable)
            else
              var category := DefaultCategory(outcome.requirement);
              var chosen :=
                match fidelity
                case None => Some(DefaultFidelity(category))
                case Some(f) => parseFidelity(f);
              match chosen
              case None => Err(UnknownFidelity)
              case Some(f) =>
                var binding := Binding(symbol, category, observable, f);
                Ok((SetBinding(state, id, binding), binding))
  }

  // ----- Runs -----

  datatype Step =
    | DoOpen(item: Item)
    | DoSetCandidate(item: Item, candidate: string, status: GateStatus)
    | DoSetGate(id: string, status: GateStatus)
    | DoGround(id: string, spec: string, fidelity: Option<string>)
    | DoAdmit(id: string, reviewer: string, confirmed: bool, atUnix: int)
    | DoDiscard(id: string)

  /** What a caller saves after one step: a refused step leaves the state alone. */
  function After(gate: Gate, parseFidelity: string -> Option<Fidelity>, state: DraftState, step: Step): DraftState {
    match step
    case DoOpen(item) => OpenDraft(state, item)
    case DoSetCandidate(item, candidate, status) => SetCandidate(state, item, candidate, status)
    case DoSetGate(id, status) => SetGate(state, id, status)
    case DoGround(id, spec, fidelity) =>
      (match Ground(gate, parseFidelity, state, id, spec, fidelity)
       case Err(_) => state
       case Ok((next, _)) => next)
    case DoAdmit(id, reviewer, confirmed, atUnix) =>
      (match AdmitGated(gate, state, id, reviewer, confirmed, atUnix)
       case Err(_) => state
       case Ok((next, _)) => next)
    case DoDiscard(id) => Discard(state, id)
  }

  function Run(gate: Gate, parseFidelity: string -> Option<Fidelity>, steps: seq<Step>): DraftState {
    if steps == [] then map[]
    else After(gate, parseFidelity, Run(gate, parseFidelity, steps[..|steps| - 1]), steps[|steps| - 1])
  }

  // ----- What every reachable draft satisfies -----

  ghost predicate DistinctSymbols(bindings: seq<Binding>) {
    forall i, j :: 0 <= i < j < |bindings| ==> bindings[i].symbol != bindings[j].symbol
  }

  /** A binding a grounding made: a trimmed, `=`-free symbol that the candidate declares. */
  ghost predicate BindingFits(gate: Gate, candidate: Option<string>, b: Binding) {
    && candidate.Some?
    && gate(candidate.value).Ok?
    && IsBindable(gate(candidate.value).value.requirement, b.symbol)
    && b.category == DefaultCategory(gate(candidate.value).value.requirement)
    && b.symbol != "" && '=' !in b.symbol
    && b.observable != "" && Trim(b.observable) == b.observable
  }

  ghost predicate DraftSound(gate: Gate, d: Draft) {
    && (d.admission.Admitted? ==>
          && d.candidate.Some?
          && gate(d.candidate.value).Ok?
          && (d.admission.review == Optional <==> gate(d.candidate.value).value.warnings == []))
    && DistinctSymbols(d.bindings)
    && forall b <- d.bindings :: BindingFits(gate, d.candidate, b)
  }

  ghost predicate AllSound(gate: Gate, state: DraftState) {
    forall id <- state :: DraftSound(gate, state[id])
  }

  lemma {:induction false} OthersKeepDistinct(bindings: seq<Binding>, symbol: string)
    requires DistinctSymbols(bindings)
    ensures DistinctSymbols(Others(bindings, symbol))
    ensures forall b :: b in Others(bindings, symbol) <==> b in bindings && b.symbol != symbol
  {
    if bindings != [] {
      OthersKeepDistinct(bindings[1..], symbol);
      assert forall b :: b in bindings <==> b == bindings[0] || b in bindings[1..];
      var rest := Others(bindings[1..], symbol);
      forall i | 0 <= i < |rest| ensures rest[i].symbol != bindings[0].symbol {
        assert rest[i] in bindings[1..];
      }
    }
  }

  lemma {:induction false} SplitOnceFacts(spec: string)
    requires SplitOnce(spec).Some?
    ensures '=' !in SplitOnce(spec).value.0
    ensures spec == SplitOnce(spec).value.0 + "=" + SplitOnce(spec).value.1
  {
    if spec[0] != '=' {
      SplitOnceFacts(spec[1..]);
      assert spec == [spec[0]] + spec[1..];
    }
  }

  lemma {:induction false} TrimIsPart(s: string)
    ensures forall c <- Trim(s) :: c in s
  {
    TrimStartIsPart(s);
  }

  lemma {:induction false} TrimStartIsPart(s: string)
    ensures forall c <- TrimStart(s) :: c in s
  {
    if s != "" && IsWhitespace(s[0]) {
      TrimStartIsPart(s[1..]);
    }
  }

  lemma GroundKeepsSound(
    gate: Gate, parseFidelity: string -> Option<Fidelity>, state: DraftState, id: string, spec: string,
    fidelity: Option<string>)
    requires AllSound(gate, state) && Ground(gate, parseFidelity, state, id, spec, fidelity).Ok?
    ensures AllSound(gate, Ground(gate, parseFidelity, state, id, spec, fidelity).value.0)
  {
    var (next, b) := Ground(gate, parseFidelity, state, id, spec, fidelity).value;
    SplitOnceFacts(spec);
    TrimIsPart(SplitOnce(spec).value.0);
    TrimIdempotent(SplitOnce(spec).value.1);
    assert BindingFits(gate, state[id].candidate, b);
    OthersKeepDistinct(state[id].bindings, b.symbol);
    var after := next[id].bindings;
    forall c | c in after ensures BindingFits(gate, next[id].candidate, c) {
      assert c == b || c in state[id].bindings;
    }
    forall i, j | 0 <= i < j < |after| ensures after[i].symbol != after[j].symbol {
      if j == |after| - 1 {
        assert after[i] in Others(state[id].bindings, b.symbol);
      }
    }
    assert DraftSound(gate, next[id]);
  }

  lemma StepKeepsSound(gate: Gate, parseFidelity: string -> Option<Fidelity>, state: DraftState, step: Step)
    requires AllSound(gate, state)
    ensures AllSound(gate, After(gate, parseFidelity, state, step))
  {
    match step {
      case DoGround(id, spec, fidelity) =>
        if Ground(gate, parseFidelity, state, id, spec, fidelity).Ok? {
          GroundKeepsSound(gate, parseFidelity, state, id, spec, fidelity);
        }
      case _ =>
    }
  }

  /**
   In every run, an admitted draft's candidate passes the gate at the tier recorded, and its bindings
   are for distinct symbols that candidate declares.
   */
  lemma {:induction false} RunsAreSound(gate: Gate, parseFidelity: string -> Option<Fidelity>, steps: seq<Step>)
    ensures AllSound(gate, Run(gate, parseFidelity, steps))
  {
    if steps != [] {
      RunsAreSound(gate, parseFidelity, steps[..|steps| - 1]);
      StepKeepsSound(gate, parseFidelity, Run(gate, parseFidelity, steps[..|steps| - 1]), steps[|steps| - 1]);
    }
  }

  // ----- What a write-back says about the run before it -----

  predicate Edits(step: Step, id: string) {
    (step.DoSetCandidate? && step.item.id == id) || (step.DoDiscard? && step.id == id)
  }

  /** An admission of `id` that goes through for this candidate: it gates, and any warnings were confirmed. */
  predicate AdmitsCandidate(gate: Gate, step: Step, id: string, candidate: string) {
    && step.DoAdmit? && step.id == id
    && gate(candidate).Ok?
    && (gate(candidate).value.warnings == [] || step.confirmed)
  }

  /** The last candidate set for `id` at `k` is still the current one at the end of the run. */
  ghost predicate LastSet(steps: seq<Step>, id: string, k: nat) {
    && k < |steps| && steps[k].DoSetCandidate? && steps[k].item.id == id
    && forall j :: k < j < |steps| ==> !Edits(steps[j], id)
  }

  ghost predicate AdmittedSince(gate: Gate, steps: seq<Step>, id: string, k: nat, candidate: string) {
    exists j :: k < j < |steps| && AdmitsCandidate(gate, steps[j], id, candidate)
  }

  /** A step that does not edit `id` keeps its candidate and revision, and admits or keeps admitted. */
  lemma StepWithoutEdit(
    gate: Gate, parseFidelity: string -> Option<Fidelity>, state: DraftState, step: Step, id: string, candidate: string)
    requires !Edits(step, id) && id in state && state[id].candidate == Some(candidate)
    ensures var after := After(gate, parseFidelity, state, step);
            && id in after
            && after[id].candidate == Some(candidate)
            && after[id].revision == state[id].revision
            && (after[id].admission.Admitted? <==>
                  state[id].admission.Admitted? || AdmitsCandidate(gate, step, id, candidate))
  {
  }

  lemma AdmittedSinceSnoc(gate: Gate, steps: seq<Step>, id: string, k: nat, candidate: string)
    requires k < |steps| - 1
    ensures AdmittedSince(gate, steps, id, k, candidate) <==>
            AdmittedSince(gate, steps[..|steps| - 1], id, k, candidate)
            || AdmitsCandidate(gate, steps[|steps| - 1], id, candidate)
  {
    var before := steps[..|steps| - 1];
    if j :| k < j < |before| && AdmitsCandidate(gate, before[j], id, candidate) {
      assert AdmitsCandidate(gate, steps[j], id, candidate);
    }
    if j :| k < j < |steps| && AdmitsCandidate(gate, steps[j], id, candidate) {
      assert j == |steps| - 1 || AdmitsCandidate(gate, before[j], id, candidate);
    }
  }

  lemma {:induction false} DraftAfterLastSet(
    gate: Gate, parseFidelity: string -> Option<Fidelity>, steps: seq<Step>, id: string, k: nat)
    requires LastSet(steps, id, k)
    ensures var state := Run(gate, parseFidelity, steps);
            && id in state
            && state[id].candidate == Some(steps[k].candidate)
            && state[id].revision == steps[k].item.revision
            && (state[id].admission.Admitted? <==> AdmittedSince(gate, steps, id, k, steps[k].candidate))
    decreases |steps|
  {
    var last := |steps| - 1;
    var before := steps[..last];
    if k < last {
      assert LastSet(before, id, k);
      DraftAfterLastSet(gate, parseFidelity, before, id, k);
      StepWithoutEdit(gate, parseFidelity, Run(gate, parseFidelity, before), steps[last], id, steps[k].candidate);
      AdmittedSinceSnoc(gate, steps, id, k, steps[k].candidate);
    }
  }

  lemma LastSetSurvives(steps: seq<Step>, id: string, k: nat)
    requires steps != [] && !Edits(steps[|steps| - 1], id)
    ensures LastSet(steps[..|steps| - 1], id, k) ==> LastSet(steps, id, k)
  {
  }

  /** With no candidate in force there is nothing admitted. */
  lemma {:induction false} NothingAdmittedWithoutSet(
    gate: Gate, parseFidelity: string -> Option<Fidelity>, steps: seq<Step>, id: string)
    requires forall k: nat :: !LastSet(steps, id, k)
    ensures var state := Run(gate, parseFidelity, steps);
            id in state ==> state[id].candidate.None? && state[id].admission.Pending?
    decreases |steps|
  {
    if steps != [] {
      var last := |steps| - 1;
      var before := steps[..last];
      if Edits(steps[last], id) {
        assert steps[last].DoSetCandidate? ==> LastSet(steps, id, last);
      } else {
        forall k: nat ensures !LastSet(before, id, k) {
          LastSetSurvives(steps, id, k);
        }
        NothingAdmittedWithoutSet(gate, parseFidelity, before, id);
      }
    }
  }

  /**
   Write-back reaches the source in exactly these runs: the last candidate set for the item was set
   against the revision the item has now, no discard came after it, and some admission of that very
   candidate was let through since. Re-admitting never clears staleness; only setting again does.
   */
  lemma WritebackExactly(gate: Gate, parseFidelity: string -> Option<Fidelity>, steps: seq<Step>, item: Item)
    ensures Writeback(Run(gate, parseFidelity, steps), item).Ok? <==>
            exists k: nat :: LastSet(steps, item.id, k)
                        && steps[k].item.revision == item.revision
                        && AdmittedSince(gate, steps, item.id, k, steps[k].candidate)
    ensures forall k: nat :: LastSet(steps, item.id, k) && Writeback(Run(gate, parseFidelity, steps), item).Ok? ==>
              var note := Writeback(Run(gate, parseFidelity, steps), item).value;
              && note.prl == steps[k].candidate
              && note.sourceRevision == item.revision
              && gate(note.prl).Ok?
              && (note.review == Optional <==> gate(note.prl).value.warnings == [])
  {
    RunsAreSound(gate, parseFidelity, steps);
    if k: nat :| LastSet(steps, item.id, k) {
      DraftAfterLastSet(gate, parseFidelity, steps, item.id, k);
      forall m: nat | LastSet(steps, item.id, m) ensures m == k {
        if m < k { assert Edits(steps[k], item.id); }
        if k < m { assert Edits(steps[m], item.id); }
      }
    } else {
      NothingAdmittedWithoutSet(gate, parseFidelity, steps, item.id);
    }
  }
}
