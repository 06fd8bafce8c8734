/**
 Drafting markers onto the subject's source (`src/contract_draft.rs`): inserting attribute lines
 bottom-up, reading whether a function already carries a marker, and planning what is missing.
 */
module Markers {
  import opened Text
  import opened LineText

  datatype Marker = Logic | Pure

  function Attribute(m: Marker): string {
    match m case Logic => "#[logic]" case Pure => "#[pure]"
  }

  /** The attribute without its brackets. */
  function Word(m: Marker): string {
    match m case Logic => "logic" case Pure => "pure"
  }

  datatype MarkerDraft = MarkerDraft(file: string, line: nat, attribute: string)

  // ----- The simultaneous specification -----

  /** The attributes drafted onto line `n` (1-based), in draft order. */
  function AttributesAt(drafts: seq<MarkerDraft>, n: nat): seq<string> {
    if drafts == [] then []
    else (if drafts[0].line == n then [drafts[0].attribute] else []) + AttributesAt(drafts[1..], n)
  }

  /** The lines above `line`: each attribute takes the indentation of the line it goes on top of. */
  function Above(line: string, attributes: seq<string>): (r: seq<string>)
    ensures |r| == |attributes|
    decreases |attributes|
  {
    if attributes == [] then []
    else
      var top := LeadingSpace(line) + attributes[0];
      Above(top, attributes[1..]) + [top]
  }

  function Block(line: string, attributes: seq<string>): (r: seq<string>)
    ensures |r| == |attributes| + 1
  {
    Above(line, attributes) + [line]
  }

  /** Every line from index `k` on, preceded by exactly its own attributes. */
  function Weave(lines: seq<string>, drafts: seq<MarkerDraft>, k: nat): seq<string>
    requires k <= |lines|
    decreases |lines| - k
  {
    if k == |lines| then [] else Block(lines[k], AttributesAt(drafts, k + 1)) + Weave(lines, drafts, k + 1)
  }

  function Edited(src: string, drafts: seq<MarkerDraft>): string {
    Unlines(Weave(Lines(src), drafts, 0), EndsInNewline(src))
  }

  // ----- Sorting by line, highest first -----

  function InsertByLine(d: MarkerDraft, sorted: seq<MarkerDraft>): seq<MarkerDraft> {
    if sorted == [] || sorted[0].line <= d.line then [d] + sorted
    else [sorted[0]] + InsertByLine(d, sorted[1..])
  }

  /** What a stable sort by descending line returns. */
  function SortByLine(drafts: seq<MarkerDraft>): seq<MarkerDraft> {
    if drafts == [] then [] else InsertByLine(drafts[0], SortByLine(drafts[1..]))
  }

  predicate Descending(drafts: seq<MarkerDraft>) {
    forall i, j | 0 <= i < j < |drafts| :: drafts[i].line >= drafts[j].line
  }

  lemma {:induction false} InsertByLineFacts(d: MarkerDraft, sorted: seq<MarkerDraft>, n: nat)
    requires Descending(sorted)
    ensures Descending(InsertByLine(d, sorted))
    ensures forall e :: e in InsertByLine(d, sorted) <==> e == d || e in sorted
    ensures AttributesAt(InsertByLine(d, sorted), n) == AttributesAt([d] + sorted, n)
  {
    if sorted != [] && sorted[0].line > d.line {
      var rest := InsertByLine(d, sorted[1..]);
      InsertByLineFacts(d, sorted[1..], n);
      var out := [sorted[0]] + rest;
      assert out[1..] == rest;
      assert ([d] + sorted)[1..] == sorted && ([d] + sorted[1..])[1..] == sorted[1..];
      forall i | 0 <= i < |rest| ensures rest[i].line <= sorted[0].line {
        assert rest[i] in rest;
      }
    }
  }

  lemma {:induction false} SortByLineFacts(drafts: seq<MarkerDraft>, n: nat)
    ensures Descending(SortByLine(drafts))
    ensures AttributesAt(SortByLine(drafts), n) == AttributesAt(drafts, n)
  {
    if drafts != [] {
      var rest := SortByLine(drafts[1..]);
      SortByLineFacts(drafts[1..], n);
      InsertByLineFacts(drafts[0], rest, n);
      assert ([drafts[0]] + rest)[1..] == rest;
    }
  }

  // ----- One insertion is one step of the specification -----

  lemma {:induction false} AttributesAtSnoc(drafts: seq<MarkerDraft>, d: MarkerDraft, n: nat)
    ensures AttributesAt(drafts + [d], n) == AttributesAt(drafts, n) + (if d.line == n then [d.attribute] else [])
  {
    if drafts == [] {
      assert drafts + [d] == [d] && [d][1..] == [];
    } else {
      assert (drafts + [d])[1..] == drafts[1..] + [d];
      AttributesAtSnoc(drafts[1..], d, n);
    }
  }

  lemma {:induction false} NoAttributesBelow(drafts: seq<MarkerDraft>, n: nat)
    requires forall d <- drafts :: d.line != n
    ensures AttributesAt(drafts, n) == []
  {
    if drafts != [] {
      assert drafts[0] in drafts;
      NoAttributesBelow(drafts[1..], n);
    }
  }

  lemma {:induction false} BlockSnoc(line: string, attributes: seq<string>, a: string)
    ensures Block(line, attributes + [a]) == [LeadingSpace(Block(line, attributes)[0]) + a] + Block(line, attributes)
    decreases |attributes|
  {
    if attributes == [] {
      assert attributes + [a] == [a] && [a][1..] == [];
    } else {
      var top := LeadingSpace(line) + attributes[0];
      assert (attributes + [a])[1..] == attributes[1..] + [a];
      BlockSnoc(top, attributes[1..], a);
      assert Block(line, attributes) == Block(top, attributes[1..]) + [line];
      assert Block(line, attributes + [a]) == Block(top, attributes[1..] + [a]) + [line];
    }
  }

  lemma {:induction false} WeaveSame(lines: seq<string>, a: seq<MarkerDraft>, b: seq<MarkerDraft>, k: nat)
    requires k <= |lines|
    requires forall n :: k < n <= |lines| ==> AttributesAt(a, n) == AttributesAt(b, n)
    ensures Weave(lines, a, k) == Weave(lines, b, k)
    decreases |lines| - k
  {
    if k < |lines| {
      WeaveSame(lines, a, b, k + 1);
      assert AttributesAt(a, k + 1) == AttributesAt(b, k + 1);
    }
  }

  lemma PutLine(lines: seq<string>, k: nat, end: nat, rest: seq<string>)
    requires k < end <= |lines|
    ensures [lines[k]] + (lines[k + 1..end] + rest) == lines[k..end] + rest
  {
    assert lines[k..end] == [lines[k]] + lines[k + 1..end];
  }

  lemma {:induction false} WeaveUntouched(lines: seq<string>, drafts: seq<MarkerDraft>, k: nat, end: nat)
    requires k <= end <= |lines|
    requires forall n :: k < n <= end ==> AttributesAt(drafts, n) == []
    ensures Weave(lines, drafts, k) == lines[k..end] + Weave(lines, drafts, end)
    decreases end - k
  {
    if k < end {
      WeaveUntouched(lines, drafts, k + 1, end);
      PutLine(lines, k, end, Weave(lines, drafts, end));
      assert Block(lines[k], []) == [lines[k]];
    } else {
      assert lines[k..end] == [];
    }
  }

  lemma NextDraftFacts(done: seq<MarkerDraft>, d: MarkerDraft)
    requires forall e <- done :: e.line >= d.line
    ensures forall n: nat ::
              AttributesAt(done + [d], n) == AttributesAt(done, n) + (if d.line == n then [d.attribute] else [])
    ensures forall n: nat :: n < d.line ==> AttributesAt(done, n) == []
  {
    forall n: nat
      ensures AttributesAt(done + [d], n) == AttributesAt(done, n) + (if d.line == n then [d.attribute] else [])
      ensures n < d.line ==> AttributesAt(done, n) == []
    {
      AttributesAtSnoc(done, d, n);
      if n < d.line {
        NoAttributesBelow(done, n);
      }
    }
  }

  function InsertAbove(lines: seq<string>, d: MarkerDraft): seq<string>
    requires 1 <= d.line <= |lines|
  {
    lines[..d.line - 1] + [LeadingSpace(lines[d.line - 1]) + d.attribute] + lines[d.line - 1..]
  }

  lemma PutBefore<T>(before: seq<T>, top: T, block: seq<T>, after: seq<T>)
    requires block != []
    ensures var all := before + (block + after);
            && |before| < |all|
            && all[|before|] == block[0]
            && all[..|before|] + [top] + all[|before|..] == before + ([top] + block + after)
  {
    var all := before + (block + after);
    assert all[..|before|] == before && all[|before|..] == block + after;
  }

  lemma WeaveAround(lines: seq<string>, drafts: seq<MarkerDraft>, k: nat)
    requires k < |lines| && forall n: nat :: 0 < n <= k ==> AttributesAt(drafts, n) == []
    ensures Weave(lines, drafts, 0) ==
            lines[..k] + (Block(lines[k], AttributesAt(drafts, k + 1)) + Weave(lines, drafts, k + 1))
  {
    WeaveUntouched(lines, drafts, 0, k);
  }

  /** Inserting the next draft of a descending list is one more step of the specification. */
  lemma InsertStep(lines: seq<string>, done: seq<MarkerDraft>, d: MarkerDraft)
    requires (forall e <- done :: e.line >= d.line) && 1 <= d.line <= |lines|
    ensures d.line <= |Weave(lines, done, 0)|
    ensures InsertAbove(Weave(lines, done, 0), d) == Weave(lines, done + [d], 0)
  {
    NextDraftFacts(done, d);
    var k := d.line - 1;
    WeaveAround(lines, done, k);
    WeaveAround(lines, done + [d], k);
    WeaveSame(lines, done, done + [d], k + 1);
    var block := Block(lines[k], AttributesAt(done, d.line));
    BlockSnoc(lines[k], AttributesAt(done, d.line), d.attribute);
    PutBefore(lines[..k], LeadingSpace(block[0]) + d.attribute, block, Weave(lines, done, k + 1));
  }

  /** A draft for a line the file does not have is ignored, however much the file has grown. */
  lemma SkipStep(lines: seq<string>, done: seq<MarkerDraft>, d: MarkerDraft)
    requires (forall e <- done :: e.line >= d.line) && !(1 <= d.line <= |lines|)
    ensures d.line == 0 || d.line > |Weave(lines, done, 0)|
    ensures Weave(lines, done, 0) == Weave(lines, done + [d], 0)
  {
    NextDraftFacts(done, d);
    WeaveSame(lines, done, done + [d], 0);
    if d.line > |lines| {
      WeaveUntouched(lines, done, 0, |lines|);
    }
  }

  lemma NextDraft(lines: seq<string>, done: seq<MarkerDraft>, d: MarkerDraft)
    requires forall e <- done :: e.line >= d.line
    ensures var woven := Weave(lines, done, 0);
            Weave(lines, done + [d], 0) == if 1 <= d.line <= |woven| then InsertAbove(woven, d) else woven
  {
    if 1 <= d.line <= |lines| {
      InsertStep(lines, done, d);
    } else {
      SkipStep(lines, done, d);
    }
  }

  lemma NextDescending(lines: seq<string>, sorted: seq<MarkerDraft>, i: nat)
    requires i < |sorted| && Descending(sorted)
    ensures var woven, d := Weave(lines, sorted[..i], 0), sorted[i];
            Weave(lines, sorted[..i + 1], 0) == if 1 <= d.line <= |woven| then InsertAbove(woven, d) else woven
  {
    NextDraft(lines, sorted[..i], sorted[i]);
    assert sorted[..i] + [sorted[i]] == sorted[..i + 1];
  }

  lemma WeaveSorted(lines: seq<string>, drafts: seq<MarkerDraft>)
    ensures Weave(lines, SortByLine(drafts), 0) == Weave(lines, drafts, 0)
  {
    forall n ensures AttributesAt(SortByLine(drafts), n) == AttributesAt(drafts, n) {
      SortByLineFacts(drafts, n);
    }
    WeaveSame(lines, SortByLine(drafts), drafts, 0);
  }

  /**
   `apply_to_source`: inserting from the highest line down equals placing every attribute at once.
   A draft for a line the file does not have is ignored.
   */
  method ApplyToSource(src: string, drafts: seq<MarkerDraft>) returns (out: string)
    ensures out == Edited(src, drafts)
  {
    ghost var original := Lines(src);
    var lines := Lines(src);
    var sorted := SortByLine(drafts);
    WeaveNothing(original);
    SortByLineFacts(drafts, 0);
    for i := 0 to |sorted|
      invariant lines == Weave(original, sorted[..i], 0)
    {
      var d := sorted[i];
      NextDescending(original, sorted, i);
      if 1 <= d.line <= |lines| {
        var indent := LeadingSpace(lines[d.line - 1]);
        lines := lines[..d.line - 1] + [indent + d.attribute] + lines[d.line - 1..];
      }
    }
    assert sorted[..|sorted|] == sorted;
    WeaveSorted(original, drafts);
    out := Join(lines);
    if EndsInNewline(src) {
      out := out + "\n";
    }
    assert Join(lines) + "" == Join(lines);
  }

  lemma WeaveNothing(lines: seq<string>)
    ensures Weave(lines, [], 0) == lines
  {
    WeaveUntouched(lines, [], 0, |lines|);
    assert lines[0..|lines|] == lines;
  }

  // ----- What the specification promises -----

  predicate OwnLines(drafts: seq<MarkerDraft>) {
    forall i, j | 0 <= i < j < |drafts| :: drafts[i].line != drafts[j].line
  }

  lemma {:induction false} OnlyAttribute(drafts: seq<MarkerDraft>, d: MarkerDraft)
    requires OwnLines(drafts) && d in drafts
    ensures AttributesAt(drafts, d.line) == [d.attribute]
  {
    if drafts[0] == d {
      NoAttributesBelow(drafts[1..], d.line);
    } else {
      OnlyAttribute(drafts[1..], d);
    }
  }

  /** Drafts for distinct lines may be given in any order. */
  lemma DraftsCommute(src: string, a: seq<MarkerDraft>, b: seq<MarkerDraft>)
    requires OwnLines(a) && OwnLines(b)
    requires forall d :: d in a <==> d in b
    ensures Edited(src, a) == Edited(src, b)
  {
    forall n ensures AttributesAt(a, n) == AttributesAt(b, n) {
      if d :| d in a && d.line == n {
        OnlyAttribute(a, d);
        OnlyAttribute(b, d);
      } else {
        NoAttributesBelow(a, n);
        NoAttributesBelow(b, n);
      }
    }
    WeaveSame(Lines(src), a, b, 0);
  }

  /** An attribute as the drafts write them: one line that does not begin with a space. */
  predicate PlainAttribute(a: string) {
    Clean(a) && a != "" && !IsWhitespace(a[0])
  }

  lemma {:induction false} LeadingSpaceOfIndented(line: string, a: string)
    requires a != "" && !IsWhitespace(a[0])
    ensures LeadingSpace(LeadingSpace(line) + a) == LeadingSpace(line)
    ensures TrimStart(LeadingSpace(line) + a) == a
  {
    if line != "" && IsWhitespace(line[0]) {
      LeadingSpaceOfIndented(line[1..], a);
      assert (LeadingSpace(line) + a)[1..] == LeadingSpace(line[1..]) + a;
    } else {
      assert LeadingSpace(line) + a == a;
    }
  }

  lemma {:induction false} LeadingSpaceIsPart(line: string)
    ensures LeadingSpace(line) <= line
  {
    if line != "" && IsWhitespace(line[0]) {
      LeadingSpaceIsPart(line[1..]);
    }
  }

  lemma {:induction false} AboveIs(line: string, attributes: seq<string>)
    requires forall a <- attributes :: PlainAttribute(a)
    ensures forall i :: 0 <= i < |attributes| ==>
              Above(line, attributes)[i] == LeadingSpace(line) + attributes[|attributes| - 1 - i]
    decreases |attributes|
  {
    if attributes != [] {
      var top := LeadingSpace(line) + attributes[0];
      assert attributes[0] in attributes;
      LeadingSpaceOfIndented(line, attributes[0]);
      AboveIs(top, attributes[1..]);
    }
  }

  /** Every attribute stands at its target line's own indentation, however many share the line. */
  lemma AboveKeepsIndentation(indent: string, ink: string, attributes: seq<string>)
    requires forall a <- attributes :: PlainAttribute(a)
    requires AllSpace(indent) && (ink != "" ==> !IsWhitespace(ink[0]))
    ensures forall i :: 0 <= i < |attributes| ==>
              Above(indent + ink, attributes)[i] == indent + attributes[|attributes| - 1 - i]
  {
    AboveIs(indent + ink, attributes);
    IndentIs(indent, ink);
  }

  lemma {:induction false} IndentIs(indent: string, ink: string)
    requires AllSpace(indent) && (ink != "" ==> !IsWhitespace(ink[0]))
    ensures LeadingSpace(indent + ink) == indent
  {
    if indent == "" {
      assert indent + ink == ink;
    } else {
      assert indent == [indent[0]] + indent[1..] && indent[0] in indent;
      assert (indent + ink)[1..] == indent[1..] + ink;
      IndentIs(indent[1..], ink);
    }
  }

  /** Dropping, before each original line, as many lines as it had drafts. */
  function DropInserted(lines: seq<string>, drafts: seq<MarkerDraft>, k: nat): seq<string>
    decreases |lines|
  {
    var n := |AttributesAt(drafts, k + 1)|;
    if |lines| <= n then [] else [lines[n]] + DropInserted(lines[n + 1..], drafts, k + 1)
  }

  lemma {:induction false} DropInsertedUndoes(lines: seq<string>, drafts: seq<MarkerDraft>, k: nat)
    requires k <= |lines|
    ensures DropInserted(Weave(lines, drafts, k), drafts, k) == lines[k..]
    decreases |lines| - k
  {
    if k < |lines| {
      var attributes := AttributesAt(drafts, k + 1);
      var rest := Weave(lines, drafts, k + 1);
      DropInsertedUndoes(lines, drafts, k + 1);
      assert (Block(lines[k], attributes) + rest)[|attributes| + 1..] == rest;
      assert lines[k..] == [lines[k]] + lines[k + 1..];
    }
  }

  lemma {:induction false} BlockIsClean(line: string, attributes: seq<string>)
    requires Clean(line) && forall a <- attributes :: Clean(a)
    ensures AllClean(Block(line, attributes))
    decreases |attributes|
  {
    if attributes != [] {
      var top := LeadingSpace(line) + attributes[0];
      LeadingSpaceIsPart(line);
      assert attributes[0] in attributes;
      BlockIsClean(top, attributes[1..]);
      assert Block(line, attributes) == Block(top, attributes[1..]) + [line];
    }
  }

  lemma {:induction false} AttributesAtMembers(drafts: seq<MarkerDraft>, n: nat)
    ensures forall a <- AttributesAt(drafts, n) :: exists d :: d in drafts && d.line == n && d.attribute == a
    ensures forall d <- drafts :: d.line == n ==> AttributesAt(drafts, n) != []
  {
    if drafts != [] {
      AttributesAtMembers(drafts[1..], n);
      assert forall d :: d in drafts <==> d == drafts[0] || d in drafts[1..];
    }
  }

  predicate PlainDrafts(drafts: seq<MarkerDraft>) {
    forall d <- drafts :: PlainAttribute(d.attribute)
  }

  lemma {:induction false} WeaveIsClean(lines: seq<string>, drafts: seq<MarkerDraft>, k: nat)
    requires k <= |lines| && AllClean(lines) && PlainDrafts(drafts)
    ensures AllClean(Weave(lines, drafts, k))
    ensures k < |lines| ==> Weave(lines, drafts, k) != []
    ensures k < |lines| ==> Weave(lines, drafts, k)[|Weave(lines, drafts, k)| - 1] == lines[|lines| - 1]
    decreases |lines| - k
  {
    if k < |lines| {
      WeaveIsClean(lines, drafts, k + 1);
      AttributesAtMembers(drafts, k + 1);
      BlockIsClean(lines[k], AttributesAt(drafts, k + 1));
    }
  }

  /** The edited text's own lines are the woven ones. */
  lemma LinesOfEdited(src: string, drafts: seq<MarkerDraft>)
    requires '\r' !in src && PlainDrafts(drafts)
    ensures Lines(Edited(src, drafts)) == Weave(Lines(src), drafts, 0)
    ensures EndsInNewline(src) ==> EndsInNewline(Edited(src, drafts))
  {
    SourceIsItsLines(src);
    WeaveIsClean(Lines(src), drafts, 0);
    if EndsInNewline(src) {
      LinesFromSome(src, "");
    }
    CleanLinesOfUnlines(Weave(Lines(src), drafts, 0), EndsInNewline(src));
  }

  /** Deleting the inserted lines gives back the CR-free source, character for character. */
  lemma EditIsUndone(src: string, drafts: seq<MarkerDraft>)
    requires '\r' !in src && PlainDrafts(drafts)
    ensures Unlines(DropInserted(Lines(Edited(src, drafts)), drafts, 0), EndsInNewline(src)) == src
  {
    LinesOfEdited(src, drafts);
    DropInsertedUndoes(Lines(src), drafts, 0);
    SourceIsItsLines(src);
    assert Lines(src)[0..] == Lines(src);
  }
}
