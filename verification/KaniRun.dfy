/** Writing a harness into the subject's `tests/`, running Kani on it and taking it away (`src/kani.rs`). */
module KaniRun {
  import opened Basics
  import opened FileTree

  const TESTS: Path := ["tests"]
  const TARGET: Path := ["target"]

  datatype Attempt = MakeTests | ReadHarness | WriteHarness | RemoveHarness | RemoveTests

  datatype Job = Job(name: string, source: string, lets: Attempt -> bool)

  datatype Outcome = NoTestsDir | WouldClobber | HarnessNotWritten | Ran(output: Option<string>)

  function HarnessPath(job: Job): Path {
    ["tests", job.name + ".rs"]
  }

  predicate Made(t: Tree, job: Job) {
    IsDir(t, TESTS) || (job.lets(MakeTests) && TESTS !in t)
  }

  function WithTests(t: Tree): Tree {
    if TESTS in t then t else t[TESTS := Dir]
  }

  predicate Written(t: Tree, job: Job) {
    Made(t, job) && !Blocked(t, HarnessPath(job), job.lets(ReadHarness)) && job.lets(WriteHarness)
    && (HarnessPath(job) in t ==> t[HarnessPath(job)].File?)
  }

  /** The tree the tool is started in. */
  function Shown(t: Tree, job: Job): Tree {
    WithTests(t)[HarnessPath(job) := File(job.source)]
  }

  /** What is at `p` at the end, given what the tool left. */
  ghost function Left(t: Tree, job: Job, left: Tree, p: Path): Option<Node> {
    var harness := HarnessPath(job);
    var gone := job.lets(RemoveHarness) && IsFile(left, harness);
    if p == harness && gone then None
    else if p == TESTS && TESTS !in t && job.lets(RemoveTests) && IsDir(left, TESTS)
            && (forall q <- left :: Under(TESTS, q) ==> q == TESTS || (q == harness && gone)) then None
    else Look(left, p)
  }

  /** How a run that started from `t` may end. */
  ghost predicate Ends(t: Tree, job: Job, tool: Tool, after: Tree, outcome: Outcome) {
    && (outcome.Ran? <==> Written(t, job))
    && (outcome.NoTestsDir? <==> !Made(t, job))
    && (outcome.WouldClobber? <==> Made(t, job) && Blocked(t, HarnessPath(job), job.lets(ReadHarness)))
    && (outcome.NoTestsDir? ==> after == t)
    && (outcome.WouldClobber? || outcome.HarnessNotWritten? ==> after == WithTests(t))
    && (outcome.Ran? ==>
          && outcome.output == tool(Shown(t, job)).1
          && forall p :: Look(after, p) == Left(t, job, tool(Shown(t, job)).0, p))
  }

  /** The two removals, in order, read path by path. */
  lemma CleanupByPath(t: Tree, job: Job, left: Tree, cleared: Tree, after: Tree)
    requires var harness := HarnessPath(job);
             cleared == if job.lets(RemoveHarness) && IsFile(left, harness) then left - {harness} else left
    requires after == if TESTS !in t && job.lets(RemoveTests) && TESTS in cleared && cleared[TESTS].Dir?
                           && Empty(cleared, TESTS)
                      then cleared - {TESTS} else cleared
    ensures forall p :: Look(after, p) == Left(t, job, left, p)
  {
    var harness := HarnessPath(job);
    assert |harness| != |TESTS|;
    var gone := job.lets(RemoveHarness) && IsFile(left, harness);
    assert Empty(cleared, TESTS) <==>
      forall q <- left :: Under(TESTS, q) ==> q == TESTS || (q == harness && gone) by
    {
      assert forall q :: q in left <==> q in cleared || (q == harness && gone);
    }
  }

  method Run(subject: Subject, job: Job, tool: Tool) returns (outcome: Outcome)
    requires Proper(subject.tree)
    modifies subject
    ensures Ends(old(subject.tree), job, tool, subject.tree, outcome)
  {
    var existed := TESTS in subject.tree;
    var made := subject.MakeDir(TESTS, job.lets(MakeTests));
    if !made {
      return NoTestsDir;
    }
    var path := HarnessPath(job);
    assert path[..|path| - 1] == TESTS;
    if Blocked(subject.tree, path, job.lets(ReadHarness)) {
      return WouldClobber;
    }
    var written := subject.Write(path, job.source, job.lets(WriteHarness));
    if !written {
      return HarnessNotWritten;
    }
    assert subject.tree == Shown(old(subject.tree), job);
    var output := subject.Execute(tool);
    ghost var left := subject.tree;
    subject.RemoveFile(path, job.lets(RemoveHarness));
    ghost var cleared := subject.tree;
    if !existed {
      subject.RemoveDir(TESTS, job.lets(RemoveTests));
    }
    CleanupByPath(old(subject.tree), job, left, cleared, subject.tree);
    outcome := Ran(output);
  }

  // ----- How far a run gets -----

  /**
   The tool is started exactly when there is a `tests/` or one can be made, nothing stands at the harness's
   place but a harness a killed run left, and the harness can be written. Any other file there is refused
   and stays as it is.
   */
  lemma RunsExactly(t: Tree, job: Job, tool: Tool, after: Tree, outcome: Outcome)
    requires Proper(t) && Ends(t, job, tool, after, outcome)
    ensures var path := ["tests", job.name + ".rs"];
            && (outcome.Ran? <==>
                  && (["tests"] in t ==> t[["tests"]].Dir?) && (["tests"] !in t ==> job.lets(MakeTests))
                  && (path in t ==> IsGenerated(t, path, job.lets(ReadHarness)))
                  && job.lets(WriteHarness))
            && (outcome.WouldClobber? <==> path in t && !IsGenerated(t, path, job.lets(ReadHarness)))
            && (outcome.WouldClobber? ==> after == t)
  {
    var path := HarnessPath(job);
    BlockedExactly(t, path, job.lets(ReadHarness));
    assert path[..|path| - 1] == TESTS;
  }

  /** What the tool finds: the harness where Kani looks for it, in a `tests/`, and all else as it was. */
  lemma ToolSees(t: Tree, job: Job, p: Path)
    requires Proper(t) && Written(t, job)
    ensures Look(Shown(t, job), p) ==
            if p == ["tests", job.name + ".rs"] then Some(File(job.source))
            else if p == ["tests"] then Some(Dir) else Look(t, p)
  {
    assert |TESTS| != |HarnessPath(job)|;
  }

  // ----- What is left behind -----

  lemma TargetApart(p: Path)
    requires p != [] && p[0] == "tests"
    ensures !Under(TARGET, p)
  {
    assert |"tests"| != |"target"|;
  }

  /** The tool writes its build directory and nothing else. */
  ghost predicate Confined(shown: Tree, left: Tree) {
    forall p :: !Under(TARGET, p) ==> Look(left, p) == Look(shown, p)
  }

  /** Everything outside the build directory is as it was; a harness a killed run left is gone. */
  ghost predicate Restored(t: Tree, job: Job, after: Tree) {
    forall p :: !Under(TARGET, p) ==>
      Look(after, p) == if p == HarnessPath(job) && Written(t, job) then None else Look(t, p)
  }

  /** What a run has to be let do to take back all it did. */
  predicate TakenBack(t: Tree, job: Job) {
    if Written(t, job) then job.lets(RemoveHarness) && (TESTS in t || job.lets(RemoveTests))
    else TESTS in t || !Made(t, job)
  }

  /**
   Whatever succeeds or fails, a run restores the subject exactly when the harness it wrote and the
   `tests/` it made can be removed; a run that made `tests/` and then wrote no harness never does.
   */
  lemma RestoredExactly(t: Tree, job: Job, tool: Tool, after: Tree, outcome: Outcome)
    requires Proper(t) && Ends(t, job, tool, after, outcome)
    requires Confined(Shown(t, job), tool(Shown(t, job)).0)
    ensures Restored(t, job, after) <==> TakenBack(t, job)
  {
    if Written(t, job) {
      if TakenBack(t, job) {
        RanRestores(t, job, tool, after, outcome);
      } else {
        RanLeavesBehind(t, job, tool, after, outcome);
      }
    } else if TESTS !in t && Made(t, job) {
      NothingUnderNothing(t, TESTS, HarnessPath(job));
      TargetApart(TESTS);
      assert |TESTS| != |HarnessPath(job)|;
      assert Look(after, TESTS) != Look(t, TESTS);
    } else {
      assert after == t;
    }
  }

  /** When the two removals go through, one path is left, and it leaves an empty `tests/`. */
  lemma OnlyTestsIsLeft(t: Tree, job: Job, tool: Tool, after: Tree, outcome: Outcome)
    requires Proper(t) && Ends(t, job, tool, after, outcome)
    requires job.lets(RemoveHarness) && job.lets(RemoveTests)
    requires Confined(Shown(t, job), tool(Shown(t, job)).0)
    ensures Restored(t, job, after) <==> !(TESTS !in t && Made(t, job) && !Written(t, job))
    ensures !Restored(t, job, after) ==> after == t[TESTS := Dir]
  {
    RestoredExactly(t, job, tool, after, outcome);
  }

  /** A removal that fails leaves the harness, or `tests/` without it. */
  lemma RanLeavesBehind(t: Tree, job: Job, tool: Tool, after: Tree, outcome: Outcome)
    requires Ends(t, job, tool, after, outcome) && Written(t, job) && !TakenBack(t, job)
    requires Confined(Shown(t, job), tool(Shown(t, job)).0)
    ensures !Restored(t, job, after)
  {
    var left, harness := tool(Shown(t, job)).0, HarnessPath(job);
    assert |TESTS| != |harness|;
    TargetApart(TESTS);
    TargetApart(harness);
    if !job.lets(RemoveHarness) {
      assert Look(after, harness) == Left(t, job, left, harness);
      assert Look(after, harness) == Some(File(job.source));
    } else {
      assert Look(after, TESTS) == Left(t, job, left, TESTS);
      assert Look(after, TESTS) == Some(Dir);
    }
  }

  lemma RanRestores(t: Tree, job: Job, tool: Tool, after: Tree, outcome: Outcome)
    requires Proper(t) && Ends(t, job, tool, after, outcome) && Written(t, job) && TakenBack(t, job)
    requires Confined(Shown(t, job), tool(Shown(t, job)).0)
    ensures Restored(t, job, after)
  {
    var shown, left, harness := Shown(t, job), tool(Shown(t, job)).0, HarnessPath(job);
    assert |TESTS| != |harness|;
    TargetApart(TESTS);
    TargetApart(harness);
    assert Look(left, harness) == Look(shown, harness) && Look(left, TESTS) == Look(shown, TESTS);
    if TESTS !in t {
      forall q | q in left && Under(TESTS, q) ensures q == TESTS || q == harness {
        TargetApart(q);
        assert Look(left, q) == Look(shown, q);
        NothingUnderNothing(t, TESTS, q);
      }
    }
    forall p | !Under(TARGET, p) ensures Look(after, p) == if p == harness then None else Look(t, p) {
      assert Look(after, p) == Left(t, job, left, p) && Look(left, p) == Look(shown, p);
    }
  }
}
