/** Planning which functions still need a marker, and that a plan, once applied, reads as done. */
module MarkerPlan {
  import opened Basics
  import opened Text
  import opened LineText
  import opened Adapter
  import opened Markers

  // ----- Reading -----

  predicate IsComment(t: string) {
    t == "" || StartsWith(t, "//")
  }

  predicate IsAttribute(t: string) {
    StartsWith(t, "#[") || StartsWith(t, "#![")
  }

  /** Walking up from the last of `above`: comments are passed, an attribute may carry the marker. */
  function MarkedAbove(above: seq<string>, m: Marker): bool {
    if above == [] then false
    else
      var t := Trim(above[|above| - 1]);
      if IsComment(t) then MarkedAbove(above[..|above| - 1], m)
      else if IsAttribute(t) then Contains(t, Word(m)) || MarkedAbove(above[..|above| - 1], m)
      else false
  }

  predicate Marked(src: string, line: nat, m: Marker) {
    1 <= line <= |Lines(src)| && MarkedAbove(Lines(src)[..line - 1], m)
  }

  /** What belongs to the item below it: a blank line, a comment or an attribute. */
  predicate InItemRun(line: string) {
    var t := Trim(line);
    t == "" || "//" <= t || "#[" <= t || "#![" <= t
  }

  predicate Says(t: string, word: string) {
    exists i | 0 <= i <= |t| :: MatchesAt(t, i, word)
  }

  /** An attribute that says the marker's word somewhere. */
  predicate SaysMarker(line: string, m: Marker) {
    var t := Trim(line);
    ("#[" <= t || "#![" <= t) && if m == Logic then Says(t, "logic") else Says(t, "pure")
  }

  lemma LineIs(line: string, m: Marker)
    ensures var t := Trim(line);
            && (InItemRun(line) <==> IsComment(t) || IsAttribute(t))
            && (SaysMarker(line, m) <==> !IsComment(t) && IsAttribute(t) && Contains(t, Word(m)))
  {
    var t := Trim(line);
    assert "#[" <= t || "#![" <= t ==> t[0] == '#';
    assert "//" <= t ==> t[0] == '/';
    assert Says(t, Word(m)) <==> Contains(t, Word(m));
  }

  function Sayer(m: Marker): string -> bool {
    (line: string) => SaysMarker(line, m)
  }

  /** Item `j` is found, and what comes after it may be passed. */
  ghost predicate FoundAt<T>(s: seq<T>, found: T -> bool, passed: T -> bool, j: nat) {
    j < |s| && found(s[j]) && forall k :: j < k < |s| ==> passed(s[k])
  }

  lemma FoundAtLast<T>(s: seq<T>, found: T -> bool, passed: T -> bool)
    requires s != []
    ensures var last, before := s[|s| - 1], s[..|s| - 1];
            (exists j :: FoundAt(s, found, passed, j)) <==>
            found(last) || (passed(last) && exists j :: FoundAt(before, found, passed, j))
  {
    var n := |s| - 1;
    if j :| FoundAt(s, found, passed, j) {
      assert j == n || FoundAt(s[..n], found, passed, j);
    }
    if j :| FoundAt(s[..n], found, passed, j) && passed(s[n]) {
      assert FoundAt(s, found, passed, j);
    }
    if found(s[n]) {
      assert FoundAt(s, found, passed, n);
    }
  }

  /** Some line above says the marker, and all below that line belong to the item. */
  ghost predicate HasMarker(above: seq<string>, m: Marker) {
    exists j :: FoundAt(above, Sayer(m), InItemRun, j)
  }

  lemma HasMarkerLast(above: seq<string>, m: Marker)
    requires above != []
    ensures var last, before := above[|above| - 1], above[..|above| - 1];
            HasMarker(above, m) <==> SaysMarker(last, m) || (InItemRun(last) && HasMarker(before, m))
  {
    FoundAtLast(above, Sayer(m), InItemRun);
    assert Sayer(m)(above[|above| - 1]) == SaysMarker(above[|above| - 1], m);
  }

  lemma MarkedAboveLast(above: seq<string>, m: Marker)
    requires above != []
    ensures var last, before := above[|above| - 1], above[..|above| - 1];
            MarkedAbove(above, m) <==> SaysMarker(last, m) || (InItemRun(last) && MarkedAbove(before, m))
  {
    LineIs(above[|above| - 1], m);
  }

  lemma {:induction false} MarkedAboveIs(above: seq<string>, m: Marker)
    ensures MarkedAbove(above, m) <==> HasMarker(above, m)
  {
    if above != [] {
      MarkedAboveIs(above[..|above| - 1], m);
      MarkedAboveLast(above, m);
      HasMarkerLast(above, m);
    }
  }

  /** A function reads as marked exactly when such an attribute is above it with only its own run in between. */
  lemma MarkedExactly(src: string, line: nat, m: Marker)
    ensures Marked(src, line, m) <==> 1 <= line <= |Lines(src)| && HasMarker(Lines(src)[..line - 1], m)
  {
    if 1 <= line <= |Lines(src)| {
      MarkedAboveIs(Lines(src)[..line - 1], m);
    }
  }

  /** `already_marked`. */
  method AlreadyMarked(src: string, line: nat, m: Marker) returns (r: bool)
    ensures r == Marked(src, line, m)
  {
    var lines := Lines(src);
    if line == 0 || line > |lines| {
      return false;
    }
    var idx := line - 1;
    while idx > 0
      invariant 0 <= idx <= line - 1
      invariant MarkedAbove(lines[..line - 1], m) == MarkedAbove(lines[..idx], m)
    {
      idx := idx - 1;
      assert lines[..idx + 1][..idx] == lines[..idx];
      var t := Trim(lines[idx]);
      if IsComment(t) {
        continue;
      }
      if IsAttribute(t) {
        if Contains(t, Word(m)) {
          return true;
        }
        continue;
      }
      return false;
    }
    r := false;
  }

  // ----- Planning -----

  /** A resolved item whose file is missing, or whose function does not carry the marker yet. */
  predicate NeedsMarker(at: CodeMatch, m: Marker, sources: map<string, string>) {
    at.file !in sources || !Marked(sources[at.file], at.line, m)
  }

  predicate Targets(r: Resolution, file: string, line: nat) {
    r.Resolved? && r.at.file == file && r.at.line == line
  }

  predicate Planned(drafts: seq<MarkerDraft>, file: string, line: nat) {
    exists d | d in drafts :: d.file == file && d.line == line
  }

  predicate Targeted(resolutions: seq<Resolution>, file: string, line: nat) {
    exists r | r in resolutions :: Targets(r, file, line)
  }

  /** The first resolution that targets a place; past the end when none does. */
  function FirstTarget(resolutions: seq<Resolution>, file: string, line: nat): nat {
    if resolutions == [] || Targets(resolutions[0], file, line) then 0
    else 1 + FirstTarget(resolutions[1..], file, line)
  }

  lemma {:induction false} FirstTargetSnoc(resolutions: seq<Resolution>, r: Resolution, file: string, line: nat)
    ensures FirstTarget(resolutions, file, line) <= |resolutions|
    ensures FirstTarget(resolutions, file, line) < |resolutions| <==> Targeted(resolutions, file, line)
    ensures FirstTarget(resolutions + [r], file, line) ==
            if Targeted(resolutions, file, line) || Targets(r, file, line) then FirstTarget(resolutions, file, line)
            else |resolutions| + 1
  {
    if resolutions == [] {
      assert [] + [r] == [r] && [r][1..] == [];
    } else {
      FirstTargetSnoc(resolutions[1..], r, file, line);
      assert (resolutions + [r])[1..] == resolutions[1..] + [r];
      assert forall x :: x in resolutions <==> x == resolutions[0] || x in resolutions[1..];
    }
  }

  /** Whether the last of these resolutions is the first to reach its place, and the place needs a marker. */
  predicate IsDrafted(before: seq<Resolution>, last: Resolution, m: Marker, sources: map<string, string>) {
    last.Resolved? && !Targeted(before, last.at.file, last.at.line) && NeedsMarker(last.at, m, sources)
  }

  function PlanOf(resolutions: seq<Resolution>, m: Marker, sources: map<string, string>): seq<MarkerDraft> {
    if resolutions == [] then []
    else
      var before, last := resolutions[..|resolutions| - 1], resolutions[|resolutions| - 1];
      PlanOf(before, m, sources)
      + if IsDrafted(before, last, m, sources) then [MarkerDraft(last.at.file, last.at.line, Attribute(m))] else []
  }

  /** Only places that need it are drafted, each with the marker. */
  ghost predicate DraftsOnlyNeeded(
    drafts: seq<MarkerDraft>, resolutions: seq<Resolution>, m: Marker, sources: map<string, string>)
  {
    forall d <- drafts ::
      && d.attribute == (if m == Logic then "#[logic]" else "#[pure]")
      && (d.file !in sources || !Marked(sources[d.file], d.line, m))
      && exists r :: r in resolutions && r.Resolved? && r.at.file == d.file && r.at.line == d.line
  }

  ghost predicate DraftsAllNeeded(
    drafts: seq<MarkerDraft>, resolutions: seq<Resolution>, m: Marker, sources: map<string, string>)
  {
    forall r <- resolutions ::
      r.Resolved? && (r.at.file !in sources || !Marked(sources[r.at.file], r.at.line, m)) ==>
        exists d :: d in drafts && d.file == r.at.file && d.line == r.at.line
  }

  ghost predicate InTargetOrder(drafts: seq<MarkerDraft>, resolutions: seq<Resolution>) {
    forall i, j :: 0 <= i < j < |drafts| ==>
      FirstTarget(resolutions, drafts[i].file, drafts[i].line)
      < FirstTarget(resolutions, drafts[j].file, drafts[j].line)
  }

  lemma {:induction false} PlanIsOrdered(resolutions: seq<Resolution>, m: Marker, sources: map<string, string>)
    ensures InTargetOrder(PlanOf(resolutions, m, sources), resolutions)
    ensures forall d <- PlanOf(resolutions, m, sources) :: Targeted(resolutions, d.file, d.line)
  {
    if resolutions != [] {
      var before, last := resolutions[..|resolutions| - 1], resolutions[|resolutions| - 1];
      assert resolutions == before + [last];
      PlanIsOrdered(before, m, sources);
      var drafts, earlier := PlanOf(resolutions, m, sources), PlanOf(before, m, sources);
      forall d | d in drafts ensures Targeted(resolutions, d.file, d.line) {
        assert last in resolutions && forall r :: r in before ==> r in resolutions;
      }
      forall i, j | 0 <= i < j < |drafts|
        ensures FirstTarget(resolutions, drafts[i].file, drafts[i].line)
                < FirstTarget(resolutions, drafts[j].file, drafts[j].line)
      {
        assert drafts[i] == earlier[i] && earlier[i] in earlier;
        FirstTargetSnoc(before, last, drafts[i].file, drafts[i].line);
        FirstTargetSnoc(before, last, drafts[j].file, drafts[j].line);
      }
    }
  }

  lemma {:induction false} PlanIsNeeded(resolutions: seq<Resolution>, m: Marker, sources: map<string, string>)
    ensures DraftsOnlyNeeded(PlanOf(resolutions, m, sources), resolutions, m, sources)
  {
    if resolutions != [] {
      var before, last := resolutions[..|resolutions| - 1], resolutions[|resolutions| - 1];
      PlanIsNeeded(before, m, sources);
      assert last in resolutions && forall r :: r in before ==> r in resolutions;
      if IsDrafted(before, last, m, sources) {
        assert Targets(last, last.at.file, last.at.line);
      }
    }
  }

  lemma {:induction false} PlanIsComplete(resolutions: seq<Resolution>, m: Marker, sources: map<string, string>)
    ensures DraftsAllNeeded(PlanOf(resolutions, m, sources), resolutions, m, sources)
  {
    if resolutions != [] {
      var before, last := resolutions[..|resolutions| - 1], resolutions[|resolutions| - 1];
      PlanIsComplete(before, m, sources);
      var drafts, earlier := PlanOf(resolutions, m, sources), PlanOf(before, m, sources);
      forall r | r in resolutions && r.Resolved? && NeedsMarker(r.at, m, sources)
        ensures Planned(drafts, r.at.file, r.at.line)
      {
        if r !in before && IsDrafted(before, last, m, sources) {
          assert r == last && drafts[|earlier|] in drafts;
        } else {
          var e := if r in before then r else EarlierTarget(before, last.at.file, last.at.line);
          assert Planned(earlier, e.at.file, e.at.line);
          var d :| d in earlier && d.file == e.at.file && d.line == e.at.line;
          assert d in drafts;
        }
      }
    }
  }

  ghost function EarlierTarget(resolutions: seq<Resolution>, file: string, line: nat): (r: Resolution)
    requires Targeted(resolutions, file, line)
    ensures r in resolutions && Targets(r, file, line)
  {
    var r :| r in resolutions && Targets(r, file, line); r
  }

  /**
   `plan_markers`, over the resolutions in key order: one draft for every place a predicate resolved to
   that does not read as marked, no other, and in the order in which the places are first resolved to.
   */
  method PlanMarkers(resolutions: seq<Resolution>, m: Marker, sources: map<string, string>)
    returns (drafts: seq<MarkerDraft>)
    ensures drafts == PlanOf(resolutions, m, sources)
    ensures forall i, j :: 0 <= i < j < |drafts| ==>
              drafts[i].file != drafts[j].file || drafts[i].line != drafts[j].line
    ensures InTargetOrder(drafts, resolutions)
    ensures DraftsOnlyNeeded(drafts, resolutions, m, sources) && DraftsAllNeeded(drafts, resolutions, m, sources)
  {
    drafts := [];
    var seen: set<(string, nat)> := {};
    for i := 0 to |resolutions|
      invariant drafts == PlanOf(resolutions[..i], m, sources)
      invariant forall f, n: nat :: (f, n) in seen <==> Targeted(resolutions[..i], f, n)
    {
      assert resolutions[..i + 1][..i] == resolutions[..i];
      TargetedNext(resolutions, i);
      var res := resolutions[i];
      if res.Unresolved? {
        continue;
      }
      var at := res.at;
      if (at.file, at.line) in seen {
        continue;
      }
      seen := seen + {(at.file, at.line)};
      if at.file in sources {
        var already := AlreadyMarked(sources[at.file], at.line, m);
        if already {
          continue;
        }
      }
      drafts := drafts + [MarkerDraft(at.file, at.line, Attribute(m))];
    }
    assert resolutions[..|resolutions|] == resolutions;
    PlanIsOrdered(resolutions, m, sources);
    PlanIsNeeded(resolutions, m, sources);
    PlanIsComplete(resolutions, m, sources);
  }

  lemma TargetedNext(resolutions: seq<Resolution>, i: nat)
    requires i < |resolutions|
    ensures forall f, n :: Targeted(resolutions[..i + 1], f, n) <==>
              Targeted(resolutions[..i], f, n) || Targets(resolutions[i], f, n)
  {
    assert forall r :: r in resolutions[..i + 1] <==> r in resolutions[..i] || r == resolutions[i];
  }

  // ----- A plan reads as done -----

  /** The line a target ends up on: every draft at or above it pushes it down by one. */
  function Shift(drafts: seq<MarkerDraft>, line: nat): nat {
    line + |WovenAttributes(drafts, line)|
  }

  function WovenAttributes(drafts: seq<MarkerDraft>, line: nat): seq<string> {
    if line == 0 then [] else WovenAttributes(drafts, line - 1) + AttributesAt(drafts, line)
  }

  /** The woven lines before index `k`'s own block. */
  function WovenBefore(lines: seq<string>, drafts: seq<MarkerDraft>, k: nat): seq<string>
    requires k <= |lines|
  {
    if k == 0 then [] else WovenBefore(lines, drafts, k - 1) + Block(lines[k - 1], AttributesAt(drafts, k))
  }

  lemma {:induction false} WeaveSplits(lines: seq<string>, drafts: seq<MarkerDraft>, k: nat)
    requires k <= |lines|
    ensures Weave(lines, drafts, 0) == WovenBefore(lines, drafts, k) + Weave(lines, drafts, k)
  {
    if k > 0 {
      WeaveSplits(lines, drafts, k - 1);
      Regroup(WovenBefore(lines, drafts, k - 1), Block(lines[k - 1], AttributesAt(drafts, k)), Weave(lines, drafts, k));
    } else {
      EmptyFirst(Weave(lines, drafts, 0));
    }
  }

  lemma EmptyFirst<T>(s: seq<T>)
    ensures [] + s == s
  {
  }

  lemma {:induction false} WovenLength(lines: seq<string>, drafts: seq<MarkerDraft>, k: nat)
    requires k <= |lines|
    ensures |WovenBefore(lines, drafts, k)| == k + |WovenAttributes(drafts, k)|
  {
    if k > 0 {
      WovenLength(lines, drafts, k - 1);
    }
  }

  lemma Regroup<T>(a: seq<T>, b: seq<T>, c: seq<T>)
    ensures a + (b + c) == a + b + c
  {
  }

  lemma TargetIndex(lines: seq<string>, drafts: seq<MarkerDraft>, n: nat)
    requires 1 <= n <= |lines|
    ensures Shift(drafts, n) - 1 == |WovenBefore(lines, drafts, n - 1)| + |AttributesAt(drafts, n)|
    ensures Weave(lines, drafts, 0) ==
            WovenBefore(lines, drafts, n - 1)
            + (Above(lines[n - 1], AttributesAt(drafts, n)) + [lines[n - 1]] + Weave(lines, drafts, n))
  {
    WeaveSplits(lines, drafts, n - 1);
    WovenLength(lines, drafts, n - 1);
    assert Weave(lines, drafts, n - 1) == Block(lines[n - 1], AttributesAt(drafts, n)) + Weave(lines, drafts, n);
    assert |WovenAttributes(drafts, n)| == |WovenAttributes(drafts, n - 1)| + |AttributesAt(drafts, n)|;
  }

  /** What stands above target `n` once the drafts are in. */
  lemma AboveTarget(lines: seq<string>, drafts: seq<MarkerDraft>, n: nat)
    requires 1 <= n <= |lines|
    ensures var woven := Weave(lines, drafts, 0);
            && 1 <= Shift(drafts, n) <= |woven|
            && woven[Shift(drafts, n) - 1] == lines[n - 1]
            && woven[..Shift(drafts, n) - 1] ==
                 WovenBefore(lines, drafts, n - 1) + Above(lines[n - 1], AttributesAt(drafts, n))
  {
    TargetIndex(lines, drafts, n);
    Locate(WovenBefore(lines, drafts, n - 1), Above(lines[n - 1], AttributesAt(drafts, n)), lines[n - 1],
           Weave(lines, drafts, n));
  }

  lemma Locate<T>(before: seq<T>, above: seq<T>, x: T, after: seq<T>)
    ensures var all := before + (above + [x] + after);
            && |before| + |above| < |all|
            && all[|before| + |above|] == x
            && all[..|before| + |above|] == before + above
  {
  }

  predicate MarkerDrafts(drafts: seq<MarkerDraft>, m: Marker) {
    forall d <- drafts :: d.attribute == Attribute(m)
  }

  lemma AttributeFacts(m: Marker)
    ensures PlainAttribute(Attribute(m)) && Trim(Attribute(m)) == Attribute(m)
    ensures IsAttribute(Attribute(m)) && !IsComment(Attribute(m)) && Contains(Attribute(m), Word(m))
  {
    match m {
      case Logic => assert MatchesAt("#[logic]", 2, "logic");
      case Pure => assert MatchesAt("#[pure]", 2, "pure");
    }
  }

  lemma IndentedAttributeTrims(line: string, m: Marker)
    ensures Trim(LeadingSpace(line) + Attribute(m)) == Attribute(m)
  {
    AttributeFacts(m);
    LeadingSpaceOfIndented(line, Attribute(m));
  }

  /** Directly under its own attributes a function reads as marked, and without any nothing changes. */
  lemma MarkedUnder(before: seq<string>, line: string, attributes: seq<string>, m: Marker)
    requires forall a <- attributes :: a == Attribute(m)
    ensures MarkedAbove(before + Above(line, attributes), m) <==> attributes != [] || MarkedAbove(before, m)
  {
    AttributeFacts(m);
    if attributes == [] {
      assert before + Above(line, attributes) == before;
    } else {
      var all := before + Above(line, attributes);
      assert attributes[0] in attributes;
      assert all[|all| - 1] == LeadingSpace(line) + Attribute(m);
      IndentedAttributeTrims(line, m);
    }
  }

  predicate Passable(line: string) {
    IsComment(Trim(line)) || IsAttribute(Trim(line))
  }

  /** Whether some draft sits in the run of comments and attributes that ends at index `k`. */
  predicate DraftInRun(lines: seq<string>, drafts: seq<MarkerDraft>, k: nat)
    requires k <= |lines|
  {
    k > 0 && Passable(lines[k - 1]) && (AttributesAt(drafts, k) != [] || DraftInRun(lines, drafts, k - 1))
  }

  lemma LastApart<T>(before: seq<T>, above: seq<T>, x: T)
    ensures before + (above + [x]) == (before + above) + [x]
  {
  }

  lemma MarkedSnoc(above: seq<string>, line: string, m: Marker)
    ensures MarkedAbove(above + [line], m) <==>
            if IsComment(Trim(line)) then MarkedAbove(above, m)
            else IsAttribute(Trim(line)) && (Contains(Trim(line), Word(m)) || MarkedAbove(above, m))
  {
    assert (above + [line])[..|above|] == above;
  }

  /** A line with its own attributes above it, seen from below. */
  lemma MarkedBlock(before: seq<string>, line: string, attributes: seq<string>, m: Marker)
    requires forall a <- attributes :: a == Attribute(m)
    ensures MarkedAbove(before + Block(line, attributes), m) <==>
            if IsComment(Trim(line)) then attributes != [] || MarkedAbove(before, m)
            else && IsAttribute(Trim(line))
                 && (Contains(Trim(line), Word(m)) || attributes != [] || MarkedAbove(before, m))
  {
    MarkedUnder(before, line, attributes, m);
    LastApart(before, Above(line, attributes), line);
    MarkedSnoc(before + Above(line, attributes), line, m);
  }

  lemma MarkedNext(
    before: seq<string>, next: seq<string>, above: seq<string>, aboveNext: seq<string>,
    line: string, attributes: seq<string>, m: Marker, inRun: bool)
    requires forall a <- attributes :: a == Attribute(m)
    requires next == before + Block(line, attributes) && aboveNext == above + [line]
    requires MarkedAbove(before, m) <==> MarkedAbove(above, m) || inRun
    ensures MarkedAbove(next, m) <==> MarkedAbove(aboveNext, m) || (Passable(line) && (attributes != [] || inRun))
  {
    MarkedBlock(before, line, attributes, m);
    MarkedSnoc(above, line, m);
  }

  lemma MarkedBeforeNext(lines: seq<string>, drafts: seq<MarkerDraft>, k: nat, m: Marker)
    requires 0 < k <= |lines| && MarkerDrafts(drafts, m)
    requires MarkedAbove(WovenBefore(lines, drafts, k - 1), m) <==>
             MarkedAbove(lines[..k - 1], m) || DraftInRun(lines, drafts, k - 1)
    ensures MarkedAbove(WovenBefore(lines, drafts, k), m) <==>
            MarkedAbove(lines[..k], m) || DraftInRun(lines, drafts, k)
  {
    OnlyMarkersAt(drafts, k, m);
    MarkedNext(WovenBefore(lines, drafts, k - 1), WovenBefore(lines, drafts, k), lines[..k - 1], lines[..k],
               lines[k - 1], AttributesAt(drafts, k), m, DraftInRun(lines, drafts, k - 1));
  }

  lemma {:induction false} MarkedBefore(lines: seq<string>, drafts: seq<MarkerDraft>, k: nat, m: Marker)
    requires k <= |lines| && MarkerDrafts(drafts, m)
    ensures MarkedAbove(WovenBefore(lines, drafts, k), m) <==>
            MarkedAbove(lines[..k], m) || DraftInRun(lines, drafts, k)
  {
    if k == 0 {
      assert lines[..0] == [];
    } else {
      MarkedBefore(lines, drafts, k - 1, m);
      MarkedBeforeNext(lines, drafts, k, m);
    }
  }

  lemma MarkerDraftsArePlain(drafts: seq<MarkerDraft>, m: Marker)
    requires MarkerDrafts(drafts, m)
    ensures PlainDrafts(drafts)
  {
    AttributeFacts(m);
  }

  lemma MarkedInWoven(lines: seq<string>, drafts: seq<MarkerDraft>, n: nat, m: Marker)
    requires MarkerDrafts(drafts, m) && 1 <= n <= |lines|
    ensures MarkedAbove(WovenBefore(lines, drafts, n - 1) + Above(lines[n - 1], AttributesAt(drafts, n)), m) <==>
              || MarkedAbove(lines[..n - 1], m)
              || AttributesAt(drafts, n) != [] || DraftInRun(lines, drafts, n - 1)
  {
    MarkedBefore(lines, drafts, n - 1, m);
    OnlyMarkersAt(drafts, n, m);
    MarkedUnder(WovenBefore(lines, drafts, n - 1), lines[n - 1], AttributesAt(drafts, n), m);
  }

  lemma OnlyMarkersAt(drafts: seq<MarkerDraft>, n: nat, m: Marker)
    requires MarkerDrafts(drafts, m)
    ensures forall a <- AttributesAt(drafts, n) :: a == Attribute(m)
  {
    AttributesAtMembers(drafts, n);
  }

  lemma MarkedWoven(lines: seq<string>, drafts: seq<MarkerDraft>, n: nat, m: Marker)
    requires MarkerDrafts(drafts, m) && 1 <= n <= |lines|
    ensures var woven := Weave(lines, drafts, 0);
            && 1 <= Shift(drafts, n) <= |woven|
            && (MarkedAbove(woven[..Shift(drafts, n) - 1], m) <==>
                  || MarkedAbove(lines[..n - 1], m)
                  || AttributesAt(drafts, n) != [] || DraftInRun(lines, drafts, n - 1))
  {
    AboveTarget(lines, drafts, n);
    MarkedInWoven(lines, drafts, n, m);
  }

  /**
   After a plan is applied a function reads as marked exactly when it did before, or was drafted, or
   shares its run of comments and attributes with one that was. No mark is lost and none is invented.
   */
  lemma MarkedAfterApplying(src: string, drafts: seq<MarkerDraft>, n: nat, m: Marker)
    requires '\r' !in src && MarkerDrafts(drafts, m) && 1 <= n <= |Lines(src)|
    ensures Marked(Edited(src, drafts), Shift(drafts, n), m) <==>
            Marked(src, n, m) || AttributesAt(drafts, n) != [] || DraftInRun(Lines(src), drafts, n - 1)
  {
    MarkerDraftsArePlain(drafts, m);
    LinesOfEdited(src, drafts);
    MarkedWoven(Lines(src), drafts, n, m);
  }

  /** The drafts of one file, as the stager groups them. */
  function ForFile(drafts: seq<MarkerDraft>, file: string): seq<MarkerDraft> {
    Filter(drafts, (d: MarkerDraft) => d.file == file)
  }

  function EditedSources(sources: map<string, string>, drafts: seq<MarkerDraft>): map<string, string> {
    map f | f in sources :: Edited(sources[f], ForFile(drafts, f))
  }

  function Shifted(r: Resolution, drafts: seq<MarkerDraft>): Resolution {
    if r.Resolved? then r.(at := r.at.(line := Shift(ForFile(drafts, r.at.file), r.at.line))) else r
  }

  predicate InSources(r: Resolution, sources: map<string, string>) {
    r.Resolved? ==>
      r.at.file in sources && '\r' !in sources[r.at.file] && 1 <= r.at.line <= |Lines(sources[r.at.file])|
  }

  /** The planner sees its own output as done: re-planning the edited sources drafts nothing. */
  lemma PlanIsItsOwnFixpoint(
    resolutions: seq<Resolution>, m: Marker, sources: map<string, string>, drafts: seq<MarkerDraft>)
    requires MarkerDrafts(drafts, m)
    requires DraftsAllNeeded(drafts, resolutions, m, sources)
    requires forall r <- resolutions :: InSources(r, sources)
    ensures forall r <- resolutions :: r.Resolved? ==>
              !NeedsMarker(Shifted(r, drafts).at, m, EditedSources(sources, drafts))
  {
    forall r | r in resolutions && r.Resolved?
      ensures !NeedsMarker(Shifted(r, drafts).at, m, EditedSources(sources, drafts))
    {
      var file, n := r.at.file, r.at.line;
      var mine := ForFile(drafts, file);
      var sameFile := (d: MarkerDraft) => d.file == file;
      forall d ensures d in mine <==> d in drafts && d.file == file {
        FilterMembers(drafts, sameFile, d);
      }
      if NeedsMarker(r.at, m, sources) {
        var d :| d in drafts && d.file == file && d.line == n;
        AttributesAtMembers(mine, n);
      }
      MarkedAfterApplying(sources[file], mine, n, m);
    }
  }
}
