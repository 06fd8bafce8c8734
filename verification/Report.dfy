/** The traceability report (`src/report.rs`): a row per requirement, orphan tags, retirement advice. */
module Report {
  import opened Basics

  datatype TraceKind = Implements | Verifies

  datatype Tag = Tag(reqId: string, kind: TraceKind, file: string, line: nat, symbol: Option<string>)

  datatype Location = Location(file: string, line: nat, symbol: Option<string>)

  datatype Basis = Proven | ModelCheckedBounded | NotFalsified

  datatype Evidence = Evidence(
    status: string, basis: Option<string>, correspondence: string, location: Option<Location>)

  datatype VerdictView = VerdictView(
    status: string, basis: Option<string>, correspondence: string, current: bool, evidence: seq<Evidence>)

  datatype ItemState = ItemState(id: string, title: Option<string>, admitted: bool, verdict: Option<VerdictView>)

  datatype VerdictCell = VerdictCell(outcome: string, basis: Option<string>, correspondence: string, current: bool)

  datatype Row = Row(
    id: string, title: Option<string>, formalized: bool,
    implements: seq<Location>, verifies: seq<Location>, verdict: Option<VerdictCell>)

  datatype Orphan = Orphan(reqId: string, kind: TraceKind, file: string, line: nat)

  datatype Recommendation = Recommendation(reqId: string, test: Location, assertedBasis: Basis, mechanicalBasis: Basis)

  datatype TraceReport = TraceReport(rows: seq<Row>, orphans: seq<Orphan>, recommendations: seq<Recommendation>)

  // ----- Assembling -----

  function UpperAscii(c: char): char {
    if 'a' <= c <= 'z' then c - 'a' + 'A' else c
  }

  /** An id without `-` and `_`, its ASCII letters upper-cased. */
  function Canonical(id: string): string {
    Map(Filter(id, (c: char) => c != '-' && c != '_'), (c: char) => UpperAscii(c))
  }

  /** Ids are compared by their characters other than `-` and `_`, `a` to `z` read as `A` to `Z`. */
  lemma CanonicalIs(id: string) returns (kept: string, at: seq<nat>)
    ensures KeepsAt(id, kept, (c: char) => c != '-' && c != '_', at)
    ensures |Canonical(id)| == |kept|
    ensures forall i :: 0 <= i < |kept| ==>
              Canonical(id)[i] == if 'a' <= kept[i] <= 'z' then kept[i] - 'a' + 'A' else kept[i]
  {
    kept := Filter(id, (c: char) => c != '-' && c != '_');
    at := FilterKeeps(id, (c: char) => c != '-' && c != '_');
  }

  function LocationOf(tag: Tag): Location {
    Location(tag.file, tag.line, tag.symbol)
  }

  predicate Matches(tag: Tag, kind: TraceKind, want: string) {
    tag.kind == kind && Canonical(tag.reqId) == want
  }

  function Matching(tags: seq<Tag>, kind: TraceKind, want: string): seq<Location> {
    Map(Filter(tags, (t: Tag) => Matches(t, kind, want)), LocationOf)
  }

  function CellOf(view: VerdictView): VerdictCell {
    VerdictCell(
      if view.status == "holds" then "proven" else if view.status == "fails" then "disproven" else "not-determined",
      view.basis, view.correspondence, view.current)
  }

  function RowOf(state: ItemState, tags: seq<Tag>): Row {
    var want := Canonical(state.id);
    Row(state.id, state.title, state.admitted,
        Matching(tags, Implements, want), Matching(tags, Verifies, want),
        if state.verdict.Some? then Some(CellOf(state.verdict.value)) else None)
  }

  function Rows(states: seq<ItemState>, tags: seq<Tag>): seq<Row> {
    if states == [] then [] else [RowOf(states[0], tags)] + Rows(states[1..], tags)
  }

  predicate Known(states: seq<ItemState>, id: string) {
    exists s | s in states :: Canonical(s.id) == Canonical(id)
  }

  function Orphans(states: seq<ItemState>, tags: seq<Tag>): seq<Orphan> {
    Map(Filter(tags, (t: Tag) => !Known(states, t.reqId)), (t: Tag) => Orphan(t.reqId, t.kind, t.file, t.line))
  }

  // ----- What a row and an orphan show -----

  /** `cell` lists the tags of this kind and id, in scanning order, each by where it stands. */
  ghost predicate Lists(cell: seq<Location>, tags: seq<Tag>, kind: TraceKind, id: string) {
    exists kept, at :: CellOfKept(cell, kept) && KeptAt(tags, kept, kind, id, at)
  }

  ghost predicate KeptAt(tags: seq<Tag>, kept: seq<Tag>, kind: TraceKind, id: string, at: seq<nat>) {
    KeepsAt(tags, kept, (t: Tag) => t.kind == kind && Canonical(t.reqId) == Canonical(id), at)
  }

  predicate CellOfKept(cell: seq<Location>, kept: seq<Tag>) {
    |cell| == |kept| && forall i | 0 <= i < |kept| :: cell[i] == Location(kept[i].file, kept[i].line, kept[i].symbol)
  }

  lemma MatchingLists(tags: seq<Tag>, kind: TraceKind, id: string)
    ensures Lists(Matching(tags, kind, Canonical(id)), tags, kind, id)
  {
    var p, q := (t: Tag) => Matches(t, kind, Canonical(id)),
                (t: Tag) => t.kind == kind && Canonical(t.reqId) == Canonical(id);
    var at := FilterKeeps(tags, p);
    var kept := Filter(tags, p);
    assert KeepsAt(tags, kept, q, at) by {
      assert forall t :: p(t) == q(t);
    }
    assert KeptAt(tags, kept, kind, id, at);
    assert CellOfKept(Matching(tags, kind, Canonical(id)), kept);
  }

  /** A row shows its requirement, the tags of both kinds that name it, and its verdict in the report's words. */
  lemma RowShows(state: ItemState, tags: seq<Tag>)
    ensures var row := RowOf(state, tags);
            && row.id == state.id && row.title == state.title && row.formalized == state.admitted
            && Lists(row.implements, tags, Implements, state.id) && Lists(row.verifies, tags, Verifies, state.id)
            && (row.verdict.Some? <==> state.verdict.Some?)
            && (state.verdict.Some? ==>
                  var view, cell := state.verdict.value, row.verdict.value;
                  && (cell.outcome == "proven" <==> view.status == "holds")
                  && (cell.outcome == "disproven" <==> view.status == "fails")
                  && cell.outcome in ["proven", "disproven", "not-determined"]
                  && cell.basis == view.basis && cell.correspondence == view.correspondence
                  && cell.current == view.current)
  {
    MatchingLists(tags, Implements, state.id);
    MatchingLists(tags, Verifies, state.id);
    assert |"proven"| == 6 && |"disproven"| == 9 && |"not-determined"| == 14;
  }

  ghost predicate NobodyClaims(states: seq<ItemState>, id: string) {
    forall s <- states :: Canonical(s.id) != Canonical(id)
  }

  /** The orphans are the tags nobody claims, in scanning order, under the id they were tagged with. */
  lemma OrphansShow(states: seq<ItemState>, tags: seq<Tag>) returns (kept: seq<Tag>, at: seq<nat>)
    ensures KeepsAt(tags, kept, (t: Tag) => NobodyClaims(states, t.reqId), at)
    ensures |Orphans(states, tags)| == |kept|
    ensures forall i :: 0 <= i < |kept| ==>
              Orphans(states, tags)[i] == Orphan(kept[i].reqId, kept[i].kind, kept[i].file, kept[i].line)
  {
    var p := (t: Tag) => !Known(states, t.reqId);
    kept := Filter(tags, p);
    at := FilterKeeps(tags, p);
    assert forall t: Tag :: p(t) == NobodyClaims(states, t.reqId);
  }

  // ----- Conservation -----

  /** A tag as both a row cell and an orphan record it. */
  datatype Mark = Mark(id: string, kind: TraceKind, file: string, line: nat)

  function TagMark(t: Tag): Mark {
    Mark(Canonical(t.reqId), t.kind, t.file, t.line)
  }

  function CellMarks(id: string, kind: TraceKind, cell: seq<Location>): seq<Mark> {
    Map(cell, (l: Location) => Mark(Canonical(id), kind, l.file, l.line))
  }

  function RowMarks(row: Row): seq<Mark> {
    CellMarks(row.id, Implements, row.implements) + CellMarks(row.id, Verifies, row.verifies)
  }

  function AllRowMarks(rows: seq<Row>): seq<Mark> {
    if rows == [] then [] else RowMarks(rows[0]) + AllRowMarks(rows[1..])
  }

  function OrphanMarks(orphans: seq<Orphan>): seq<Mark> {
    Map(orphans, (o: Orphan) => Mark(Canonical(o.reqId), o.kind, o.file, o.line))
  }

  function TagMarks(tags: seq<Tag>): seq<Mark> {
    Map(tags, TagMark)
  }

  /** How many requirements go by this canonical id. */
  function Claimants(states: seq<ItemState>, id: string): nat {
    if states == [] then 0 else (if Canonical(states[0].id) == id then 1 else 0) + Claimants(states[1..], id)
  }

  lemma {:induction false} ClaimantsKnown(states: seq<ItemState>, id: string)
    ensures Claimants(states, Canonical(id)) == 0 <==> !Known(states, id)
  {
    if states != [] {
      ClaimantsKnown(states[1..], id);
      assert forall s :: s in states <==> s == states[0] || s in states[1..];
    }
  }

  lemma MapCons<T, U>(x: T, rest: seq<T>, f: T -> U)
    ensures Map([x] + rest, f) == [f(x)] + Map(rest, f)
  {
  }

  lemma CountFirst(x: Mark, rest: seq<Mark>, m: Mark)
    ensures multiset([x] + rest)[m] == (if x == m then 1 else 0) + multiset(rest)[m]
  {
  }

  lemma MatchingFirst(tag: Tag, rest: seq<Tag>, kind: TraceKind, want: string)
    ensures Matching([tag] + rest, kind, want) ==
            if Matches(tag, kind, want) then [LocationOf(tag)] + Matching(rest, kind, want)
            else Matching(rest, kind, want)
  {
    assert ([tag] + rest)[1..] == rest;
    MapCons(tag, Filter(rest, (t: Tag) => Matches(t, kind, want)), LocationOf);
  }

  lemma CellMarksFirst(id: string, kind: TraceKind, l: Location, rest: seq<Location>)
    ensures CellMarks(id, kind, [l] + rest) == [Mark(Canonical(id), kind, l.file, l.line)] + CellMarks(id, kind, rest)
  {
    MapCons(l, rest, (k: Location) => Mark(Canonical(id), kind, k.file, k.line));
  }

  function CellCount(tags: seq<Tag>, kind: TraceKind, id: string, m: Mark): nat {
    multiset(CellMarks(id, kind, Matching(tags, kind, Canonical(id))))[m]
  }

  lemma CellCountFirst(tag: Tag, rest: seq<Tag>, kind: TraceKind, id: string, m: Mark)
    ensures CellCount([tag] + rest, kind, id, m) ==
            (if Matches(tag, kind, Canonical(id)) && TagMark(tag) == m then 1 else 0) + CellCount(rest, kind, id, m)
  {
    var want := Canonical(id);
    MatchingFirst(tag, rest, kind, want);
    if Matches(tag, kind, want) {
      CellMarksFirst(id, kind, LocationOf(tag), Matching(rest, kind, want));
      CountFirst(TagMark(tag), CellMarks(id, kind, Matching(rest, kind, want)), m);
    }
  }

  lemma TagCountFirst(tag: Tag, rest: seq<Tag>, m: Mark)
    ensures multiset(TagMarks([tag] + rest))[m] == (if TagMark(tag) == m then 1 else 0) + multiset(TagMarks(rest))[m]
  {
    MapCons(tag, rest, TagMark);
    CountFirst(TagMark(tag), TagMarks(rest), m);
  }

  lemma NoTagsNoCell(kind: TraceKind, id: string, m: Mark)
    ensures CellCount([], kind, id, m) == 0 == multiset(TagMarks([]))[m]
  {
  }

  /** One cell of one row takes every matching tag, once for each time it was scanned. */
  lemma {:induction false} CellCounts(tags: seq<Tag>, kind: TraceKind, id: string, m: Mark)
    ensures CellCount(tags, kind, id, m) ==
            if m.kind == kind && m.id == Canonical(id) then multiset(TagMarks(tags))[m] else 0
  {
    if tags == [] {
      NoTagsNoCell(kind, id, m);
    } else {
      CellCounts(tags[1..], kind, id, m);
      assert tags == [tags[0]] + tags[1..];
      CellCountFirst(tags[0], tags[1..], kind, id, m);
      TagCountFirst(tags[0], tags[1..], m);
    }
  }

  lemma RowCounts(state: ItemState, tags: seq<Tag>, m: Mark)
    ensures multiset(RowMarks(RowOf(state, tags)))[m] ==
            if Canonical(state.id) == m.id then multiset(TagMarks(tags))[m] else 0
  {
    CellCounts(tags, Implements, state.id, m);
    CellCounts(tags, Verifies, state.id, m);
  }

  function Times(n: nat, k: nat): nat {
    if n == 0 then 0 else Times(n - 1, k) + k
  }

  lemma {:induction false} TimesBounds(n: nat, k: nat)
    ensures n == 1 ==> Times(n, k) == k
    ensures n > 1 && k > 0 ==> Times(n, k) > k
  {
    if n > 1 {
      TimesBounds(n - 1, k);
    } else if n == 1 {
      assert Times(0, k) == 0;
    }
  }

  function RowsCountOf(states: seq<ItemState>, tags: seq<Tag>, m: Mark): nat {
    multiset(AllRowMarks(Rows(states, tags)))[m]
  }

  lemma OneRowMore(states: seq<ItemState>, tags: seq<Tag>, m: Mark)
    requires states != []
    ensures RowsCountOf(states, tags, m) ==
            RowsCountOf(states[1..], tags, m)
            + if Canonical(states[0].id) == m.id then multiset(TagMarks(tags))[m] else 0
  {
    var row := RowOf(states[0], tags);
    RowCounts(states[0], tags, m);
    MarksOfFirst(row, Rows(states[1..], tags));
    CountConcat(RowMarks(row), AllRowMarks(Rows(states[1..], tags)), m);
  }

  lemma NoRows(tags: seq<Tag>, m: Mark)
    ensures RowsCountOf([], tags, m) == 0
  {
  }

  lemma OneClaimantMore(states: seq<ItemState>, id: string, k: nat)
    requires states != []
    ensures Times(Claimants(states, id), k) ==
            Times(Claimants(states[1..], id), k) + if Canonical(states[0].id) == id then k else 0
  {
  }

  lemma {:induction false} RowsCount(states: seq<ItemState>, tags: seq<Tag>, m: Mark, k: nat)
    requires k == multiset(TagMarks(tags))[m]
    ensures RowsCountOf(states, tags, m) == Times(Claimants(states, m.id), k)
  {
    if states == [] {
      NoRows(tags, m);
    } else {
      RowsCount(states[1..], tags, m, k);
      OneRowMore(states, tags, m);
      OneClaimantMore(states, m.id, k);
    }
  }

  lemma MarksOfFirst(row: Row, rest: seq<Row>)
    ensures AllRowMarks([row] + rest) == RowMarks(row) + AllRowMarks(rest)
  {
    assert ([row] + rest)[1..] == rest;
  }

  lemma CountConcat(a: seq<Mark>, b: seq<Mark>, m: Mark)
    ensures multiset(a + b)[m] == multiset(a)[m] + multiset(b)[m]
  {
  }

  function OrphanCount(states: seq<ItemState>, tags: seq<Tag>, m: Mark): nat {
    multiset(OrphanMarks(Orphans(states, tags)))[m]
  }

  lemma OrphanCountFirst(states: seq<ItemState>, tag: Tag, rest: seq<Tag>, m: Mark)
    ensures OrphanCount(states, [tag] + rest, m) ==
            (if !Known(states, tag.reqId) && TagMark(tag) == m then 1 else 0) + OrphanCount(states, rest, m)
  {
    var orphan := (t: Tag) => Orphan(t.reqId, t.kind, t.file, t.line);
    var mark := (o: Orphan) => Mark(Canonical(o.reqId), o.kind, o.file, o.line);
    var others := Filter(rest, (t: Tag) => !Known(states, t.reqId));
    assert ([tag] + rest)[1..] == rest;
    if Known(states, tag.reqId) {
      assert Orphans(states, [tag] + rest) == Orphans(states, rest);
    } else {
      MapCons(tag, others, orphan);
      assert Orphans(states, [tag] + rest) == [orphan(tag)] + Orphans(states, rest);
      MapCons(orphan(tag), Orphans(states, rest), mark);
      CountFirst(TagMark(tag), OrphanMarks(Orphans(states, rest)), m);
    }
  }

  lemma NoTagsNoOrphan(states: seq<ItemState>, m: Mark)
    ensures OrphanCount(states, [], m) == 0 == multiset(TagMarks([]))[m]
  {
  }

  /** A tag is an orphan, once for each time it was scanned, exactly when nobody claims its id. */
  lemma {:induction false} OrphansCount(states: seq<ItemState>, tags: seq<Tag>, m: Mark)
    ensures OrphanCount(states, tags, m) == if Claimants(states, m.id) == 0 then multiset(TagMarks(tags))[m] else 0
  {
    if tags == [] {
      NoTagsNoOrphan(states, m);
    } else {
      OrphansCount(states, tags[1..], m);
      ClaimantsKnown(states, tags[0].reqId);
      assert tags == [tags[0]] + tags[1..];
      OrphanCountFirst(states, tags[0], tags[1..], m);
      TagCountFirst(tags[0], tags[1..], m);
    }
  }

  lemma MarkBalances(states: seq<ItemState>, tags: seq<Tag>, m: Mark)
    ensures var all := multiset(TagMarks(tags));
            multiset(AllRowMarks(Rows(states, tags)))[m] + multiset(OrphanMarks(Orphans(states, tags)))[m] == all[m]
            <==> Claimants(states, m.id) <= 1 || all[m] == 0
  {
    RowsCount(states, tags, m, multiset(TagMarks(tags))[m]);
    OrphansCount(states, tags, m);
    TimesBounds(Claimants(states, m.id), multiset(TagMarks(tags))[m]);
    if multiset(TagMarks(tags))[m] == 0 {
      TimesZero(Claimants(states, m.id));
    }
  }

  lemma {:induction false} TimesZero(n: nat)
    ensures Times(n, 0) == 0
  {
    if n > 0 { TimesZero(n - 1); }
  }

  lemma MarkOfTag(tags: seq<Tag>, t: Tag)
    requires t in tags
    ensures multiset(TagMarks(tags))[TagMark(t)] > 0
  {
    var i :| 0 <= i < |tags| && tags[i] == t;
    assert TagMarks(tags)[i] == TagMark(t);
  }

  lemma TagOfMark(tags: seq<Tag>, m: Mark)
    requires multiset(TagMarks(tags))[m] > 0
    ensures exists t :: t in tags && TagMark(t) == m
  {
    assert m in TagMarks(tags);
    var i :| 0 <= i < |tags| && TagMarks(tags)[i] == m;
    assert tags[i] in tags && TagMark(tags[i]) == m;
  }

  // ----- Bases -----

  function ParseBasis(text: Option<string>): Option<Basis> {
    match text
    case None => None
    case Some(s) =>
      if s == "proven" then Some(Proven)
      else if s == "model-checked (bounded)" then Some(ModelCheckedBounded)
      else if s == "not-falsified" then Some(NotFalsified)
      else None
  }

  function BasisRank(b: Basis): nat {
    match b
    case Proven => 2
    case ModelCheckedBounded => 1
    case NotFalsified => 0
  }

  /** The basis a piece of evidence holds on, when it holds and the label is one this build ranks. */
  function HoldsOn(e: Evidence): Option<Basis> {
    if e.status == "holds" then ParseBasis(e.basis) else None
  }

  /** `strongest_holds_basis`; ties are between equal bases, so which one wins cannot be told. */
  function Strongest(evidence: seq<Evidence>, correspondence: string): Option<Basis> {
    if evidence == [] then None
    else
      var rest := Strongest(evidence[..|evidence| - 1], correspondence);
      var last := evidence[|evidence| - 1];
      if last.correspondence != correspondence || HoldsOn(last).None? then rest
      else if rest.Some? && BasisRank(rest.value) > BasisRank(HoldsOn(last).value) then rest
      else HoldsOn(last)
  }

  lemma {:induction false} StrongestIsBest(evidence: seq<Evidence>, correspondence: string)
    ensures var s := Strongest(evidence, correspondence);
            && (s.Some? ==> exists e :: e in evidence && e.correspondence == correspondence && HoldsOn(e) == s)
            && (forall e :: e in evidence && e.correspondence == correspondence && HoldsOn(e).Some? ==>
                  s.Some? && BasisRank(HoldsOn(e).value) <= BasisRank(s.value))
  {
    if evidence != [] {
      var last := evidence[|evidence| - 1];
      StrongestIsBest(evidence[..|evidence| - 1], correspondence);
      assert forall e :: e in evidence <==> e in evidence[..|evidence| - 1] || e == last;
    }
  }

  // ----- Retirement -----

  /** A located, asserted, holding test whose basis some holding mechanical result matches or beats. */
  predicate Redundant(evidence: seq<Evidence>, e: Evidence) {
    && e.correspondence == "asserted" && HoldsOn(e).Some? && e.location.Some?
    && exists m | m in evidence ::
         m.correspondence == "mechanical" && HoldsOn(m).Some?
         && BasisRank(HoldsOn(m).value) >= BasisRank(HoldsOn(e).value)
  }

  /** The rungs, strongest first; any other label is none. */
  const RUNGS := ["proven", "model-checked (bounded)", "not-falsified"]

  /** Label `a` is on the same rung as label `b` or on a stronger one. */
  predicate NoWeaker(a: string, b: string) {
    exists i, j | 0 <= i <= j < |RUNGS| :: RUNGS[i] == a && RUNGS[j] == b
  }

  lemma NoWeakerIs(a: string, b: string)
    ensures NoWeaker(a, b) <==>
            var x, y := ParseBasis(Some(a)), ParseBasis(Some(b));
            x.Some? && y.Some? && BasisRank(x.value) >= BasisRank(y.value)
  {
    assert RUNGS[0] == "proven" && RUNGS[1] == "model-checked (bounded)" && RUNGS[2] == "not-falsified";
    assert |RUNGS[0]| == 6 && |RUNGS[1]| == 23 && |RUNGS[2]| == 13;
  }

  /** A test is redundant exactly when it holds and something mechanical holds on no weaker a rung. */
  lemma RedundantExactly(evidence: seq<Evidence>, e: Evidence)
    ensures Redundant(evidence, e) <==>
              && e.correspondence == "asserted" && e.location.Some? && e.status == "holds" && e.basis.Some?
              && exists m :: m in evidence && m.correspondence == "mechanical" && m.status == "holds" && m.basis.Some?
                        && NoWeaker(m.basis.value, e.basis.value)
  {
    if e.basis.Some? {
      forall m: Evidence ensures m.basis.Some? ==>
                  (NoWeaker(m.basis.value, e.basis.value) <==>
                     var x, y := ParseBasis(m.basis), ParseBasis(e.basis);
                     x.Some? && y.Some? && BasisRank(x.value) >= BasisRank(y.value))
      {
        if m.basis.Some? { NoWeakerIs(m.basis.value, e.basis.value); }
      }
    }
  }

  function EvidenceOf(state: ItemState): seq<Evidence> {
    if state.verdict.Some? then state.verdict.value.evidence else []
  }

  lemma RedundantByStrongest(evidence: seq<Evidence>, e: Evidence)
    ensures Redundant(evidence, e) <==>
              && e.correspondence == "asserted" && HoldsOn(e).Some? && e.location.Some?
              && Strongest(evidence, "mechanical").Some?
              && BasisRank(HoldsOn(e).value) <= BasisRank(Strongest(evidence, "mechanical").value)
  {
    StrongestIsBest(evidence, "mechanical");
  }

  /** The one recommendation a redundant test earns: both sides' bases, and where the test is. */
  function Advice(id: string, evidence: seq<Evidence>, e: Evidence): Recommendation
    requires Redundant(evidence, e)
  {
    RedundantByStrongest(evidence, e);
    Recommendation(id, e.location.value, HoldsOn(e).value, Strongest(evidence, "mechanical").value)
  }

  /** Advice for the redundant ones among the first `n` pieces of evidence, in order. */
  function AdviceFor(id: string, evidence: seq<Evidence>, n: nat): seq<Recommendation>
    requires n <= |evidence|
  {
    if n == 0 then []
    else AdviceFor(id, evidence, n - 1)
         + if Redundant(evidence, evidence[n - 1]) then [Advice(id, evidence, evidence[n - 1])] else []
  }

  function AllAdvice(states: seq<ItemState>, n: nat): seq<Recommendation>
    requires n <= |states|
  {
    if n == 0 then []
    else
      var evidence := EvidenceOf(states[n - 1]);
      AllAdvice(states, n - 1) + AdviceFor(states[n - 1].id, evidence, |evidence|)
  }

  lemma {:induction false} NoMechanicalNoAdvice(id: string, evidence: seq<Evidence>, n: nat)
    requires n <= |evidence| && Strongest(evidence, "mechanical").None?
    ensures AdviceFor(id, evidence, n) == []
  {
    if n > 0 {
      RedundantByStrongest(evidence, evidence[n - 1]);
      NoMechanicalNoAdvice(id, evidence, n - 1);
    }
  }

  /** Whether the loop, which has the strongest mechanical basis at hand, recommends this test. */
  predicate Outdone(e: Evidence, mechanical: Basis) {
    && e.correspondence == "asserted" && HoldsOn(e).Some?
    && BasisRank(HoldsOn(e).value) <= BasisRank(mechanical) && e.location.Some?
  }

  lemma AdviceForNext(id: string, evidence: seq<Evidence>, j: nat, mechanical: Basis)
    requires j < |evidence| && Strongest(evidence, "mechanical") == Some(mechanical)
    ensures var e := evidence[j];
            AdviceFor(id, evidence, j + 1) ==
            AdviceFor(id, evidence, j)
            + if Outdone(e, mechanical)
              then [Recommendation(id, e.location.value, HoldsOn(e).value, mechanical)] else []
  {
    RedundantByStrongest(evidence, evidence[j]);
  }

  lemma AllAdviceNext(states: seq<ItemState>, i: nat)
    requires i < |states|
    ensures AllAdvice(states, i + 1) ==
            AllAdvice(states, i) + AdviceFor(states[i].id, EvidenceOf(states[i]), |EvidenceOf(states[i])|)
  {
  }

  /** `recommend_retirements`. */
  method RecommendRetirements(states: seq<ItemState>) returns (out: seq<Recommendation>)
    ensures out == AllAdvice(states, |states|)
  {
    out := [];
    for i := 0 to |states|
      invariant out == AllAdvice(states, i)
    {
      ghost var before := out;
      AllAdviceNext(states, i);
      var id, evidence := states[i].id, EvidenceOf(states[i]);
      var mechanical := Strongest(evidence, "mechanical");
      if mechanical.None? {
        NoMechanicalNoAdvice(id, evidence, |evidence|);
        continue;
      }
      for j := 0 to |evidence|
        invariant out == before + AdviceFor(id, evidence, j)
      {
        var e := evidence[j];
        AdviceForNext(id, evidence, j, mechanical.value);
        if Outdone(e, mechanical.value) {
          out := out + [Recommendation(id, e.location.value, HoldsOn(e).value, mechanical.value)];
        }
      }
    }
  }

  // ----- The whole report -----

  function Assemble(states: seq<ItemState>, tags: seq<Tag>): TraceReport {
    TraceReport(Rows(states, tags), Orphans(states, tags), AllAdvice(states, |states|))
  }

  /** Every tag lands in exactly one row cell or among the orphans, as often as it was scanned. */
  ghost predicate Conserved(report: TraceReport, tags: seq<Tag>) {
    multiset(AllRowMarks(report.rows)) + multiset(OrphanMarks(report.orphans)) == multiset(TagMarks(tags))
  }

  lemma ConservedExactly(states: seq<ItemState>, tags: seq<Tag>)
    ensures Conserved(Assemble(states, tags), tags) <==> forall t <- tags :: Claimants(states, Canonical(t.reqId)) <= 1
  {
    var report := Assemble(states, tags);
    var cells, orphans, all :=
      multiset(AllRowMarks(report.rows)), multiset(OrphanMarks(report.orphans)), multiset(TagMarks(tags));
    if Conserved(report, tags) {
      forall t | t in tags ensures Claimants(states, Canonical(t.reqId)) <= 1 {
        MarkOfTag(tags, t);
        assert (cells + orphans)[TagMark(t)] == all[TagMark(t)];
        MarkBalances(states, tags, TagMark(t));
      }
    }
    if forall t <- tags :: Claimants(states, Canonical(t.reqId)) <= 1 {
      forall m: Mark ensures (cells + orphans)[m] == all[m] {
        MarkBalances(states, tags, m);
        if all[m] > 0 {
          TagOfMark(tags, m);
        }
      }
      assert cells + orphans == all;
    }
  }

  // ----- Acting on the advice -----

  function RankOf(e: Evidence): int {
    if HoldsOn(e).Some? then BasisRank(HoldsOn(e).value) else -1
  }

  /** The strongest rung any holding evidence of the requirement reaches; -1 when none holds. */
  function BestRank(evidence: seq<Evidence>): (r: int)
    ensures r >= -1
  {
    if evidence == [] then -1
    else
      var rest := BestRank(evidence[1..]);
      if RankOf(evidence[0]) > rest then RankOf(evidence[0]) else rest
  }

  lemma {:induction false} BestRankIs(evidence: seq<Evidence>)
    ensures forall e <- evidence :: RankOf(e) <= BestRank(evidence)
    ensures BestRank(evidence) >= 0 ==> exists e :: e in evidence && RankOf(e) == BestRank(evidence)
  {
    if evidence != [] {
      BestRankIs(evidence[1..]);
      assert forall e :: e in evidence <==> e == evidence[0] || e in evidence[1..];
    }
  }

  /** Keeping some of the evidence keeps the best rung exactly when something that reaches it is kept. */
  lemma KeepingKeepsBest(evidence: seq<Evidence>, keep: Evidence -> bool)
    ensures BestRank(Filter(evidence, keep)) <= BestRank(evidence)
    ensures BestRank(Filter(evidence, keep)) == BestRank(evidence) <==>
              BestRank(evidence) < 0 || exists e :: e in evidence && keep(e) && RankOf(e) == BestRank(evidence)
  {
    var kept := Filter(evidence, keep);
    BestRankIs(evidence);
    BestRankIs(kept);
    forall e ensures e in kept <==> e in evidence && keep(e) {
      FilterMembers(evidence, keep, e);
    }
  }

  /** Retiring every test recommended on a requirement's account never lowers that requirement's best rung. */
  lemma RetiringNeverLowersItsOwn(evidence: seq<Evidence>)
    ensures BestRank(Filter(evidence, (e: Evidence) => !Redundant(evidence, e))) == BestRank(evidence)
  {
    var keep := (e: Evidence) => !Redundant(evidence, e);
    KeepingKeepsBest(evidence, keep);
    BestRankIs(evidence);
    if BestRank(evidence) >= 0 {
      var e :| e in evidence && RankOf(e) == BestRank(evidence);
      if Redundant(evidence, e) {
        var m :| m in evidence && m.correspondence == "mechanical" && HoldsOn(m).Some?
                 && BasisRank(HoldsOn(m).value) >= BasisRank(HoldsOn(e).value);
        assert keep(m) && RankOf(m) == BestRank(evidence);
      }
    }
  }

  // A test is retired by deleting it, and one test may be tagged for several requirements.

  /** Some requirement of the report was advised that this test is redundant. */
  ghost predicate Retiring(states: seq<ItemState>, test: Location) {
    exists s, e :: s in states && e in EvidenceOf(s) && Redundant(EvidenceOf(s), e) && e.location == Some(test)
  }

  predicate SurvivesDeleting(e: Evidence, tests: set<Location>) {
    !(e.correspondence == "asserted" && e.location.Some? && e.location.value in tests)
  }

  function AdvisedTests(states: seq<ItemState>): set<Location> {
    set rec | rec in AllAdvice(states, |states|) :: rec.test
  }

  lemma {:induction false} AdviceForTests(id: string, evidence: seq<Evidence>, n: nat, test: Location)
    requires n <= |evidence|
    ensures (exists rec :: rec in AdviceFor(id, evidence, n) && rec.test == test) <==>
            exists e :: e in evidence[..n] && Redundant(evidence, e) && e.location == Some(test)
  {
    if n > 0 {
      AdviceForTests(id, evidence, n - 1, test);
      var last := evidence[n - 1];
      assert evidence[..n] == evidence[..n - 1] + [last];
      assert forall e :: e in evidence[..n] <==> e in evidence[..n - 1] || e == last;
      assert Redundant(evidence, last) ==> Advice(id, evidence, last) in AdviceFor(id, evidence, n);
      assert forall rec :: rec in AdviceFor(id, evidence, n) <==>
        rec in AdviceFor(id, evidence, n - 1) || (Redundant(evidence, last) && rec == Advice(id, evidence, last));
    }
  }

  ghost predicate RetiringIn(state: ItemState, test: Location) {
    exists e :: e in EvidenceOf(state) && Redundant(EvidenceOf(state), e) && e.location == Some(test)
  }

  lemma RetiringSnoc(states: seq<ItemState>, last: ItemState, test: Location)
    ensures Retiring(states + [last], test) <==> Retiring(states, test) || RetiringIn(last, test)
  {
    assert forall s :: s in states + [last] <==> s in states || s == last;
    if RetiringIn(last, test) {
      var e :| e in EvidenceOf(last) && Redundant(EvidenceOf(last), e) && e.location == Some(test);
      assert last in states + [last];
    }
  }

  ghost predicate Advised(advice: seq<Recommendation>, test: Location) {
    exists rec :: rec in advice && rec.test == test
  }

  lemma AdvisedConcat(a: seq<Recommendation>, b: seq<Recommendation>, test: Location)
    ensures Advised(a + b, test) <==> Advised(a, test) || Advised(b, test)
  {
    assert forall rec :: rec in a + b <==> rec in a || rec in b;
  }

  function OwnAdvice(state: ItemState): seq<Recommendation> {
    AdviceFor(state.id, EvidenceOf(state), |EvidenceOf(state)|)
  }

  lemma OwnAdviceTests(state: ItemState, test: Location)
    ensures Advised(OwnAdvice(state), test) <==> RetiringIn(state, test)
  {
    var evidence := EvidenceOf(state);
    AdviceForTests(state.id, evidence, |evidence|, test);
    assert evidence[..|evidence|] == evidence;
  }

  lemma AdvisedNext(states: seq<ItemState>, n: nat, test: Location)
    requires n < |states|
    ensures Advised(AllAdvice(states, n + 1), test) <==>
            Advised(AllAdvice(states, n), test) || Advised(OwnAdvice(states[n]), test)
  {
    AdvisedConcat(AllAdvice(states, n), OwnAdvice(states[n]), test);
  }

  lemma RetiringNext(states: seq<ItemState>, n: nat, test: Location)
    requires n < |states|
    ensures Retiring(states[..n + 1], test) <==> Retiring(states[..n], test) || RetiringIn(states[n], test)
  {
    assert states[..n + 1] == states[..n] + [states[n]];
    RetiringSnoc(states[..n], states[n], test);
  }

  lemma NoneAdvised(states: seq<ItemState>, test: Location)
    ensures Advised(AllAdvice(states, 0), test) <==> Retiring(states[..0], test)
  {
  }

  lemma AdviceTestsNext(states: seq<ItemState>, n: nat, test: Location)
    requires n < |states| && (Advised(AllAdvice(states, n), test) <==> Retiring(states[..n], test))
    ensures Advised(AllAdvice(states, n + 1), test) <==> Retiring(states[..n + 1], test)
  {
    AdvisedNext(states, n, test);
    RetiringNext(states, n, test);
    OwnAdviceTests(states[n], test);
  }

  lemma {:induction false} AllAdviceTests(states: seq<ItemState>, n: nat, test: Location)
    requires n <= |states|
    ensures Advised(AllAdvice(states, n), test) <==> Retiring(states[..n], test)
  {
    if n == 0 {
      NoneAdvised(states, test);
    } else {
      AllAdviceTests(states, n - 1, test);
      AdviceTestsNext(states, n - 1, test);
    }
  }

  lemma AdvisedAreRetiring(states: seq<ItemState>, test: Location)
    ensures test in AdvisedTests(states) <==> Retiring(states, test)
  {
    AllAdviceTests(states, |states|, test);
    assert states[..|states|] == states;
  }

  /** What is left of one requirement's evidence once every recommended test of the report is deleted. */
  function LeftAfter(states: seq<ItemState>, i: nat): seq<Evidence>
    requires i < |states|
  {
    var tests := AdvisedTests(states);
    Filter(EvidenceOf(states[i]), (e: Evidence) => SurvivesDeleting(e, tests))
  }

  /** Another requirement's evidence makes the test at this place redundant. */
  ghost predicate RetiredElsewhere(states: seq<ItemState>, i: nat, test: Location) {
    exists j: nat, e ::
      j < |states| && j != i && e in EvidenceOf(states[j])
      && Redundant(EvidenceOf(states[j]), e) && e.location == Some(test)
  }

  /** A weaker result recorded for the same place is redundant by itself. */
  ghost predicate RetiredUnder(evidence: seq<Evidence>, e: Evidence) {
    exists f :: f in evidence && Redundant(evidence, f) && f.location == e.location && RankOf(f) < RankOf(e)
  }

  ghost predicate IsLost(states: seq<ItemState>, i: nat, e: Evidence)
    requires i < |states|
  {
    && e.correspondence == "asserted" && e.location.Some?
    && (RetiredElsewhere(states, i, e.location.value) || RetiredUnder(EvidenceOf(states[i]), e))
  }

  /** A test is deleted on another requirement's account or on its own. */
  lemma RetiringIs(states: seq<ItemState>, i: nat, test: Location)
    requires i < |states|
    ensures Retiring(states, test) <==>
              || RetiredElsewhere(states, i, test)
              || exists f :: f in EvidenceOf(states[i])
                             && Redundant(EvidenceOf(states[i]), f) && f.location == Some(test)
  {
    if Retiring(states, test) {
      var s, e :| s in states && e in EvidenceOf(s) && Redundant(EvidenceOf(s), e) && e.location == Some(test);
      var j: nat :| j < |states| && states[j] == s;
      assert j == i || RetiredElsewhere(states, i, test);
    }
    if RetiredElsewhere(states, i, test) {
      var j: nat, e :| j < |states| && j != i && e in EvidenceOf(states[j])
                       && Redundant(EvidenceOf(states[j]), e) && e.location == Some(test);
      assert states[j] in states;
    }
  }

  /** A best result that is deleted for its own requirement alone leaves a mechanical one as good. */
  lemma DeletedBestIsCovered(states: seq<ItemState>, i: nat, e: Evidence) returns (m: Evidence)
    requires i < |states| && e in EvidenceOf(states[i]) && RankOf(e) == BestRank(EvidenceOf(states[i])) >= 0
    requires !IsLost(states, i, e)
    ensures m in EvidenceOf(states[i]) && SurvivesDeleting(m, AdvisedTests(states))
    ensures RankOf(m) == BestRank(EvidenceOf(states[i]))
  {
    var evidence := EvidenceOf(states[i]);
    m := e;
    if !SurvivesDeleting(e, AdvisedTests(states)) {
      AdvisedAreRetiring(states, e.location.value);
      RetiringIs(states, i, e.location.value);
      var f :| f in evidence && Redundant(evidence, f) && f.location == e.location;
      assert RankOf(f) >= RankOf(e);
      m :| m in evidence && m.correspondence == "mechanical" && HoldsOn(m).Some?
           && BasisRank(HoldsOn(m).value) >= BasisRank(HoldsOn(f).value);
      BestRankIs(evidence);
    }
  }

  /**
   Deleting every recommended test of the whole report leaves a requirement's best rung where it was
   exactly when some result that reaches it is neither a test another requirement was advised to retire,
   nor one whose place also carries a weaker result that is redundant.
   */
  lemma RetiringAllExactly(states: seq<ItemState>, i: nat)
    requires i < |states|
    ensures var evidence := EvidenceOf(states[i]);
            BestRank(LeftAfter(states, i)) == BestRank(evidence) <==>
              || BestRank(evidence) < 0
              || exists e :: e in evidence && RankOf(e) == BestRank(evidence) && !IsLost(states, i, e)
  {
    var evidence, tests := EvidenceOf(states[i]), AdvisedTests(states);
    var keep := (e: Evidence) => SurvivesDeleting(e, tests);
    KeepingKeepsBest(evidence, keep);
    if e :| e in evidence && RankOf(e) == BestRank(evidence) >= 0 && !IsLost(states, i, e) {
      var m := DeletedBestIsCovered(states, i, e);
      assert keep(m);
    }
    if e :| e in evidence && keep(e) && RankOf(e) == BestRank(evidence) {
      if e.correspondence == "asserted" && e.location.Some? {
        AdvisedAreRetiring(states, e.location.value);
        RetiringIs(states, i, e.location.value);
      }
      assert !IsLost(states, i, e);
    }
  }

  /** One asserted test is one piece of evidence. */
  ghost predicate OneTestPerLocation(evidence: seq<Evidence>) {
    forall e, f | e in evidence && f in evidence ::
      e.correspondence == "asserted" && f.correspondence == "asserted" && e.location.Some? && e.location == f.location
      ==> e == f
  }

  /**
   With one result to a test, sharing is the only way to lose a rung: it stays exactly when some result
   that reaches it is not a test another requirement was advised to retire.
   */
  lemma OnlySharedTestsAreLost(states: seq<ItemState>, i: nat)
    requires i < |states| && OneTestPerLocation(EvidenceOf(states[i]))
    ensures var evidence := EvidenceOf(states[i]);
            BestRank(LeftAfter(states, i)) == BestRank(evidence) <==>
              || BestRank(evidence) < 0
              || exists e :: e in evidence && RankOf(e) == BestRank(evidence)
                   && !(e.correspondence == "asserted" && e.location.Some?
                        && RetiredElsewhere(states, i, e.location.value))
  {
    RetiringAllExactly(states, i);
    forall e | e in EvidenceOf(states[i]) && e.correspondence == "asserted"
      ensures !(e.location.Some? && RetiredUnder(EvidenceOf(states[i]), e))
    {
    }
  }

  /** No two requirements rest on the same test. */
  ghost predicate NothingShared(states: seq<ItemState>) {
    forall i: nat, j: nat, e, f ::
      i < |states| && j < |states| && i != j && e in EvidenceOf(states[i]) && f in EvidenceOf(states[j])
      && e.correspondence == "asserted" && f.correspondence == "asserted" && e.location.Some?
      ==> e.location != f.location
  }

  /** Where no test is shared, acting on every recommendation of the report lowers no requirement. */
  lemma NothingSharedNothingLost(states: seq<ItemState>, i: nat)
    requires i < |states| && NothingShared(states) && OneTestPerLocation(EvidenceOf(states[i]))
    ensures BestRank(LeftAfter(states, i)) == BestRank(EvidenceOf(states[i]))
  {
    OnlySharedTestsAreLost(states, i);
    BestRankIs(EvidenceOf(states[i]));
  }

  /**
   A test tagged for two requirements, redundant for one and all the other has: acting on the advice for
   the first leaves the second with nothing.
   */
  lemma SharedTestIsLost(first: string, second: string, at: Location)
    ensures var states := Sharing(first, second, at);
            BestRank(EvidenceOf(states[1])) == 0 && BestRank(LeftAfter(states, 1)) == -1
  {
    var states, test := Sharing(first, second, at), SharedTest(at);
    var proof := states[0].verdict.value.evidence[0];
    assert test in EvidenceOf(states[0]) && proof in EvidenceOf(states[0]);
    assert Redundant(EvidenceOf(states[0]), test);
    assert RetiredElsewhere(states, 1, at);
    OnlySharedTestsAreLost(states, 1);
    assert RankOf(test) == 0 && BestRank([test]) == 0;
    var tests := AdvisedTests(states);
    KeepingKeepsBest([test], (e: Evidence) => SurvivesDeleting(e, tests));
  }

  function SharedTest(at: Location): Evidence {
    Evidence("holds", Some("not-falsified"), "asserted", Some(at))
  }

  function Sharing(first: string, second: string, at: Location): (states: seq<ItemState>)
    ensures |states| == 2
  {
    var proof := Evidence("holds", Some("proven"), "mechanical", None);
    var both := VerdictView("holds", Some("proven"), "mechanical", true, [proof, SharedTest(at)]);
    var alone := VerdictView("holds", Some("not-falsified"), "asserted", true, [SharedTest(at)]);
    [ItemState(first, None, true, Some(both)), ItemState(second, None, true, Some(alone))]
  }
}
