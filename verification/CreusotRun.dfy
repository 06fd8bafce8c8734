/**
 Attaching a harness to the subject's crate root, running Creusot and putting everything back
 (`src/creusot.rs`).
 */
module CreusotRun {
  import opened Basics
  import opened Text
  import opened FileTree

  const LIB: Path := ["src", "lib.rs"]
  const BIN: Path := ["src", "main.rs"]
  const CONFIG: Path := ["why3find.json"]
  const VERIF: Path := ["verif"]
  const CACHE: Path := [".why3find"]
  const TARGET: Path := ["target"]

  /** Every use of the machine whose failure the code either reports or ignores. */
  datatype Attempt =
    | ReadHarness | ReadRoot | WriteHarness | AttachModule | UndoHarness | CopyConfig
    | RestoreRoot | RemoveHarness | RemoveConfig | RemoveVerif | RemoveCache
    | ListBefore(report: Path) | ListAfter(report: Path) | RemoveReport(report: Path)

  /** `installed` is the prover configuration that came with Creusot, if there is one. */
  datatype Job = Job(name: string, source: string, installed: Option<string>, lets: Attempt -> bool)

  datatype Outcome =
    | NoCrate | WouldClobber | RootUnreadable | NoConfig | HarnessNotWritten | NotAttached
    | Ran(output: Option<string>)

  /** `src/lib.rs`, else `src/main.rs`. */
  function CrateRoot(t: Tree): Option<Path> {
    if LIB in t then Some(LIB) else if BIN in t then Some(BIN) else None
  }

  function HarnessPath(job: Job): Path {
    ["src", job.name + ".rs"]
  }

  function WithModule(original: string, name: string): string {
    original + "\n#[cfg(creusot)]\nmod " + name + ";\n"
  }

  predicate IsReport(p: Path) {
    |p| == 1 && StartsWith(p[0], "rustc-ice-") && EndsWith(p[0], ".txt")
  }

  // ----- How far a run gets -----

  /** Nothing is written unless all of this holds. */
  predicate Ready(t: Tree, job: Job) {
    && CrateRoot(t).Some?
    && !Blocked(t, HarnessPath(job), job.lets(ReadHarness))
    && Read(t, CrateRoot(t).value, job.lets(ReadRoot)).Some?
    && (CONFIG in t || job.installed.Some?)
  }

  predicate Written(t: Tree, job: Job) {
    Ready(t, job) && job.lets(WriteHarness) && CanWrite(t, HarnessPath(job))
  }

  predicate Attached(t: Tree, job: Job) {
    Written(t, job) && job.lets(AttachModule)
  }

  predicate Configured(t: Tree, job: Job) {
    CONFIG !in t && job.lets(CopyConfig)
  }

  /** The tree the tool is started in. */
  function Shown(t: Tree, job: Job): Tree
    requires Ready(t, job)
  {
    var root := CrateRoot(t).value;
    var attached := t[HarnessPath(job) := File(job.source)][root := File(WithModule(t[root].content, job.name))];
    if Configured(t, job) then attached[CONFIG := File(job.installed.value)] else attached
  }

  // ----- What is at each path at the end -----

  predicate SweptDir(t: Tree, job: Job, left: Tree, dir: Path, lets: bool) {
    dir !in t && lets && dir in left && left[dir].Dir?
  }

  /** A report in the second listing and not in the first is taken to be this run's. */
  predicate SweptReport(t: Tree, job: Job, left: Tree, p: Path) {
    && IsReport(p) && IsFile(left, p)
    && job.lets(ListAfter(p)) && !(p in t && job.lets(ListBefore(p)))
    && job.lets(RemoveReport(p))
  }

  predicate SweptOutput(t: Tree, job: Job, left: Tree, p: Path) {
    || (p == HarnessPath(job) && job.lets(RemoveHarness) && IsFile(left, p))
    || (p == CONFIG && CONFIG !in t && job.lets(RemoveConfig) && IsFile(left, p))
    || (Under(VERIF, p) && SweptDir(t, job, left, VERIF, job.lets(RemoveVerif)))
    || (Under(CACHE, p) && SweptDir(t, job, left, CACHE, job.lets(RemoveCache)))
  }

  predicate Swept(t: Tree, job: Job, left: Tree, p: Path) {
    SweptOutput(t, job, left, p) || SweptReport(t, job, left, p)
  }

  function Left(t: Tree, job: Job, left: Tree, p: Path): Option<Node>
    requires Ready(t, job)
  {
    var root := CrateRoot(t).value;
    if p == root && job.lets(RestoreRoot) && CanWrite(left, root) then Some(t[root])
    else if Swept(t, job, left, p) then None
    else Look(left, p)
  }

  /** Which refusal a run ends with, the first that applies. */
  predicate RefusedAs(t: Tree, job: Job, outcome: Outcome) {
    && (outcome.NoCrate? <==> LIB !in t && BIN !in t)
    && (outcome.WouldClobber? <==> !outcome.NoCrate? && Blocked(t, HarnessPath(job), job.lets(ReadHarness)))
    && (outcome.RootUnreadable? <==>
          && CrateRoot(t).Some? && !outcome.WouldClobber?
          && Read(t, CrateRoot(t).value, job.lets(ReadRoot)).None?)
    && (outcome.NoConfig? <==>
          && CrateRoot(t).Some? && !outcome.WouldClobber? && !outcome.RootUnreadable?
          && CONFIG !in t && job.installed.None?)
  }

  /** How a run that started from `t` may end. */
  ghost predicate Ends(t: Tree, job: Job, tool: Tool, after: Tree, outcome: Outcome) {
    && RefusedAs(t, job, outcome)
    && (outcome.Ran? <==> Attached(t, job))
    && (outcome.NotAttached? <==> Written(t, job) && !Attached(t, job))
    && (outcome.HarnessNotWritten? <==> Ready(t, job) && !Written(t, job))
    && (!Written(t, job) ==> after == t)
    && (outcome.NotAttached? ==>
          after == if job.lets(UndoHarness) then t - {HarnessPath(job)} else t[HarnessPath(job) := File(job.source)])
    && (outcome.Ran? ==>
          && outcome.output == tool(Shown(t, job)).1
          && forall p :: Look(after, p) == Left(t, job, tool(Shown(t, job)).0, p))
  }

  /** The crate root is never the harness: every generated name starts with `provreq_`. */
  lemma RootIsNotHarness(job: Job)
    requires StartsWith(job.name, "provreq_")
    ensures HarnessPath(job) != LIB && HarnessPath(job) != BIN
  {
    assert (job.name + ".rs")[0] == 'p';
    assert "lib.rs"[0] == 'l' && "main.rs"[0] == 'm';
  }

  /** Once the harness is written: the `mod` line, then the prover configuration if there was none. */
  method Attach(subject: Subject, job: Job, root: Path, original: string, configCreated: bool, ghost t: Tree)
    returns (attached: bool)
    requires Proper(t) && StartsWith(job.name, "provreq_") && Written(t, job)
    requires CrateRoot(t) == Some(root) && t[root] == File(original) && configCreated == (CONFIG !in t)
    requires subject.tree == t[HarnessPath(job) := File(job.source)]
    modifies subject
    ensures attached == Attached(t, job)
    ensures attached ==> subject.tree == Shown(t, job)
    ensures !attached ==> subject.tree == if job.lets(UndoHarness) then t - {HarnessPath(job)}
                                          else t[HarnessPath(job) := File(job.source)]
  {
    var path := HarnessPath(job);
    RootIsNotHarness(job);
    RootWritable(t, job, root);
    var ok := subject.Write(root, WithModule(original, job.name), job.lets(AttachModule));
    if !ok {
      subject.RemoveFile(path, job.lets(UndoHarness));
      return false;
    }
    assert |CONFIG| == 1 && |path| == 2 && |root| == 2;
    if configCreated {
      var _ := subject.Write(CONFIG, job.installed.value, job.lets(CopyConfig));
    }
    attached := true;
  }

  lemma RootWritable(t: Tree, job: Job, root: Path)
    requires Proper(t) && CrateRoot(t) == Some(root) && IsFile(t, root)
    requires StartsWith(job.name, "provreq_")
    ensures CanWrite(t[HarnessPath(job) := File(job.source)], root)
    ensures CanWrite(t[HarnessPath(job) := File(job.source)], CONFIG) || CONFIG in t
  {
    RootIsNotHarness(job);
    assert root[..|root| - 1] == ["src"];
    assert ["src"] != HarnessPath(job) by { assert |HarnessPath(job)| == 2; }
    assert IsDir(t, root[..|root| - 1]);
    assert CONFIG[..0] == [];
  }

  // ----- How far a run gets, and what the tool finds -----

  /** `src/lib.rs` is the crate root, and `src/main.rs` is where there is no library. */
  predicate IsRoot(t: Tree, root: Path) {
    root in t && (root == ["src", "lib.rs"] || (root == ["src", "main.rs"] && ["src", "lib.rs"] !in t))
  }

  lemma RootIs(t: Tree, root: Path)
    ensures CrateRoot(t) == Some(root) <==> IsRoot(t, root)
  {
    assert ["src", "lib.rs"] != ["src", "main.rs"] by { assert "lib.rs"[0] == 'l' && "main.rs"[0] == 'm'; }
  }

  /**
   The tool is started exactly when there is a readable crate root and a prover configuration, nothing stands
   at the harness's place but a harness a killed run left, and the harness and the `mod` line can be written.
   Any other file there is refused and stays as it is.
   */
  lemma RunsExactly(t: Tree, job: Job, tool: Tool, after: Tree, outcome: Outcome)
    requires Proper(t) && Ends(t, job, tool, after, outcome)
    ensures var path := ["src", job.name + ".rs"];
            && (outcome.Ran? <==>
                  && (exists root :: IsRoot(t, root) && t[root].File?) && job.lets(ReadRoot)
                  && (["why3find.json"] in t || job.installed.Some?)
                  && (path in t ==> IsGenerated(t, path, job.lets(ReadHarness)))
                  && job.lets(WriteHarness) && job.lets(AttachModule))
            && (path in t && !IsGenerated(t, path, job.lets(ReadHarness)) ==>
                  after == t && !outcome.Ran? && (outcome.WouldClobber? || outcome.NoCrate?))
  {
    var path := HarnessPath(job);
    BlockedExactly(t, path, job.lets(ReadHarness));
    forall root ensures CrateRoot(t) == Some(root) <==> IsRoot(t, root) {
      RootIs(t, root);
    }
    assert path[..|path| - 1] == ["src"];
    if CrateRoot(t).Some? {
      var root := CrateRoot(t).value;
      assert root[..|root| - 1] == ["src"];
      assert IsDir(t, ["src"]);
    }
  }

  /** What the tool finds: the harness as a module of the crate, a prover configuration, and all else as it was. */
  lemma ToolSees(t: Tree, job: Job, root: Path, p: Path)
    requires Proper(t) && StartsWith(job.name, "provreq_") && Attached(t, job) && IsRoot(t, root)
    ensures t[root].File?
    ensures Look(Shown(t, job), p) ==
            if p == ["src", job.name + ".rs"] then Some(File(job.source))
            else if p == root then Some(File(t[root].content + "\n#[cfg(creusot)]\nmod " + job.name + ";\n"))
            else if p == ["why3find.json"] && p !in t && job.lets(CopyConfig)
            then Some(File(job.installed.value)) else Look(t, p)
  {
    RootIs(t, root);
    RootIsNotHarness(job);
    assert |CONFIG| != |root| && |CONFIG| != |HarnessPath(job)|;
  }

  // ----- Undoing -----

  function Reports(t: Tree, sees: Path -> bool): set<Path> {
    set p | p in t && IsReport(p) && sees(p)
  }

  /** The places a run cleans up are told apart by their first component. */
  lemma HeadsApart()
    ensures "src" != "why3find.json" && "src" != "verif" && "src" != ".why3find" && "src" != "target"
    ensures "why3find.json" != "verif" && "why3find.json" != ".why3find" && "why3find.json" != "target"
    ensures "verif" != ".why3find" && "verif" != "target" && ".why3find" != "target"
    ensures forall p :: IsReport(p) ==>
              p[0] != "src" && p[0] != "why3find.json" && p[0] != "verif" && p[0] != ".why3find" && p[0] != "target"
  {
    assert |"src"| == 3 && |"why3find.json"| == 13 && |"verif"| == 5 && |".why3find"| == 9 && |"target"| == 6;
    assert "src"[0] == 's' && "why3find.json"[0] == 'w' && "verif"[0] == 'v' && ".why3find"[0] == '.';
    assert "target"[0] == 't';
    forall p | IsReport(p) ensures p[0][0] == 'r' {
      assert "rustc-ice-" <= p[0];
    }
  }

  /** What is at `p` when everything but the crash reports has been undone. */
  function FixedAt(t: Tree, job: Job, root: Path, left: Tree, p: Path): Option<Node> {
    if p == root && job.lets(RestoreRoot) && CanWrite(left, root) then Look(t, root)
    else if SweptOutput(t, job, left, p) then None
    else Look(left, p)
  }

  method RestoreFixed(
    subject: Subject, job: Job, root: Path, original: string,
    configCreated: bool, verifCreated: bool, cacheCreated: bool, ghost t: Tree)
    requires StartsWith(job.name, "provreq_")
    requires CrateRoot(t) == Some(root) && t[root] == File(original)
    requires configCreated == (CONFIG !in t) && verifCreated == (VERIF !in t) && cacheCreated == (CACHE !in t)
    modifies subject
    ensures forall p :: Look(subject.tree, p) == FixedAt(t, job, root, old(subject.tree), p)
  {
    ghost var left := subject.tree;
    var path := HarnessPath(job);
    var _ := subject.Write(root, original, job.lets(RestoreRoot));
    ghost var a := subject.tree;
    subject.RemoveFile(path, job.lets(RemoveHarness));
    ghost var b := subject.tree;
    if configCreated {
      subject.RemoveFile(CONFIG, job.lets(RemoveConfig));
    }
    ghost var c := subject.tree;
    if verifCreated {
      subject.RemoveDirAll(VERIF, job.lets(RemoveVerif));
    }
    ghost var d := subject.tree;
    if cacheCreated {
      subject.RemoveDirAll(CACHE, job.lets(RemoveCache));
    }
    forall p ensures Look(subject.tree, p) == FixedAt(t, job, root, left, p) {
      FixedSweepsAt(t, job, root, left, a, b, c, d, subject.tree, p);
    }
  }

  /** `b` is `a` with the file at `q` gone if `cut` lets it go. */
  predicate CutsFile(a: Tree, b: Tree, q: Path, cut: bool) {
    b == if cut && IsFile(a, q) then a - {q} else a
  }

  predicate CutsDir(a: Tree, b: Tree, dir: Path, cut: bool) {
    b == if cut && dir in a && a[dir].Dir? then Without(a, dir) else a
  }

  lemma CutsFileAt(a: Tree, b: Tree, q: Path, cut: bool, p: Path)
    requires CutsFile(a, b, q, cut)
    ensures Look(b, p) == if p == q && cut && IsFile(a, q) then None else Look(a, p)
  {
  }

  lemma CutsDirAt(a: Tree, b: Tree, dir: Path, cut: bool, p: Path)
    requires CutsDir(a, b, dir, cut)
    ensures Look(b, p) == if Under(dir, p) && cut && dir in a && a[dir].Dir? then None else Look(a, p)
  {
  }

  ghost predicate FixedSweeps(t: Tree, job: Job, root: Path, left: Tree, a: Tree, b: Tree, c: Tree, d: Tree, e: Tree) {
    && CrateRoot(t) == Some(root)
    && a == (if job.lets(RestoreRoot) && CanWrite(left, root) then left[root := t[root]] else left)
    && CutsFile(a, b, HarnessPath(job), job.lets(RemoveHarness))
    && CutsFile(b, c, CONFIG, CONFIG !in t && job.lets(RemoveConfig))
    && CutsDir(c, d, VERIF, VERIF !in t && job.lets(RemoveVerif))
    && CutsDir(d, e, CACHE, CACHE !in t && job.lets(RemoveCache))
  }

  /** Each step looks at its own place, which no earlier step has touched. */
  lemma StepsLookAtTheirOwn(
    t: Tree, job: Job, root: Path, left: Tree, a: Tree, b: Tree, c: Tree, d: Tree, e: Tree)
    requires StartsWith(job.name, "provreq_") && FixedSweeps(t, job, root, left, a, b, c, d, e)
    ensures Look(a, HarnessPath(job)) == Look(left, HarnessPath(job))
    ensures Look(b, CONFIG) == Look(left, CONFIG)
    ensures Look(c, VERIF) == Look(left, VERIF)
    ensures Look(d, CACHE) == Look(left, CACHE)
  {
    var path := HarnessPath(job);
    RootIsNotHarness(job);
    HeadsApart();
    assert root[0] == "src" && path[0] == "src";
    assert CONFIG[0] == "why3find.json" && VERIF[0] == "verif" && CACHE[0] == ".why3find";
    CutsFileAt(a, b, path, job.lets(RemoveHarness), CONFIG);
    CutsFileAt(a, b, path, job.lets(RemoveHarness), VERIF);
    CutsFileAt(a, b, path, job.lets(RemoveHarness), CACHE);
    CutsFileAt(b, c, CONFIG, CONFIG !in t && job.lets(RemoveConfig), VERIF);
    CutsFileAt(b, c, CONFIG, CONFIG !in t && job.lets(RemoveConfig), CACHE);
    CutsDirAt(c, d, VERIF, VERIF !in t && job.lets(RemoveVerif), CACHE);
  }

  /** Every path is in at most one of the places a run cleans up. */
  lemma OnePlace(job: Job, p: Path)
    requires StartsWith(job.name, "provreq_")
    ensures (p == LIB || p == BIN || p == HarnessPath(job)) ==> p != CONFIG && !Under(VERIF, p) && !Under(CACHE, p)
    ensures (p == LIB || p == BIN || p == HarnessPath(job)) ==> !IsReport(p) && !Under(TARGET, p)
    ensures p == LIB || p == BIN ==> p != HarnessPath(job)
    ensures p == CONFIG ==> !Under(VERIF, p) && !Under(CACHE, p) && !IsReport(p) && !Under(TARGET, p)
    ensures Under(VERIF, p) ==> !Under(CACHE, p) && !IsReport(p) && !Under(TARGET, p)
    ensures Under(CACHE, p) ==> !IsReport(p) && !Under(TARGET, p)
    ensures IsReport(p) ==> !Under(TARGET, p)
  {
    RootIsNotHarness(job);
    HeadsApart();
    assert LIB[0] == "src" && BIN[0] == "src" && HarnessPath(job)[0] == "src";
    assert CONFIG[0] == "why3find.json" && VERIF[0] == "verif" && CACHE[0] == ".why3find" && TARGET[0] == "target";
  }

  lemma FixedSweepsAt(
    t: Tree, job: Job, root: Path, left: Tree, a: Tree, b: Tree, c: Tree, d: Tree, e: Tree, p: Path)
    requires StartsWith(job.name, "provreq_") && FixedSweeps(t, job, root, left, a, b, c, d, e)
    ensures Look(e, p) == FixedAt(t, job, root, left, p)
  {
    var path := HarnessPath(job);
    OnePlace(job, p);
    StepsLookAtTheirOwn(t, job, root, left, a, b, c, d, e);
    CutsFileAt(a, b, path, job.lets(RemoveHarness), p);
    CutsFileAt(b, c, CONFIG, CONFIG !in t && job.lets(RemoveConfig), p);
    CutsDirAt(c, d, VERIF, VERIF !in t && job.lets(RemoveVerif), p);
    CutsDirAt(d, e, CACHE, CACHE !in t && job.lets(RemoveCache), p);
    assert p != root ==> Look(a, p) == Look(left, p);
  }

  /** Every report the second listing has and the first had not, one at a time. */
  method RemoveReports(subject: Subject, job: Job, before: set<Path>)
    modifies subject
    ensures forall p :: Look(subject.tree, p) ==
              if IsReport(p) && IsFile(old(subject.tree), p) && job.lets(ListAfter(p)) && p !in before
                 && job.lets(RemoveReport(p))
              then None else Look(old(subject.tree), p)
  {
    var found := Reports(subject.tree, p => job.lets(ListAfter(p))) - before;
    var todo := found;
    while todo != {}
      invariant todo <= found
      invariant forall p :: Look(subject.tree, p) ==
                  if p in found - todo && IsFile(old(subject.tree), p) && job.lets(RemoveReport(p))
                  then None else Look(old(subject.tree), p)
    {
      ghost var was := subject.tree;
      var report :| report in todo;
      assert Look(was, report) == Look(old(subject.tree), report);
      subject.RemoveFile(report, job.lets(RemoveReport(report)));
      todo := todo - {report};
      forall p ensures Look(subject.tree, p) ==
                  if p in found - todo && IsFile(old(subject.tree), p) && job.lets(RemoveReport(p))
                  then None else Look(old(subject.tree), p)
      {
        assert p != report ==> Look(subject.tree, p) == Look(was, p);
      }
    }
  }

  method Run(subject: Subject, job: Job, tool: Tool) returns (outcome: Outcome)
    requires Proper(subject.tree) && StartsWith(job.name, "provreq_")
    modifies subject
    ensures Ends(old(subject.tree), job, tool, subject.tree, outcome)
  {
    ghost var t := subject.tree;
    var at := CrateRoot(subject.tree);
    if at.None? {
      return NoCrate;
    }
    var root, path := at.value, HarnessPath(job);
    if Blocked(subject.tree, path, job.lets(ReadHarness)) {
      return WouldClobber;
    }
    var read := Read(subject.tree, root, job.lets(ReadRoot));
    if read.None? {
      return RootUnreadable;
    }
    var original := read.value;
    var configCreated := CONFIG !in subject.tree;
    if configCreated && job.installed.None? {
      return NoConfig;
    }
    var verifCreated, cacheCreated := VERIF !in subject.tree, CACHE !in subject.tree;
    var reports := Reports(subject.tree, p => job.lets(ListBefore(p)));
    var written := subject.Write(path, job.source, job.lets(WriteHarness));
    if !written {
      return HarnessNotWritten;
    }
    var attached := Attach(subject, job, root, original, configCreated, t);
    if !attached {
      return NotAttached;
    }
    var output := subject.Execute(tool);
    ghost var left := subject.tree;
    RestoreFixed(subject, job, root, original, configCreated, verifCreated, cacheCreated, t);
    ghost var fixed := subject.tree;
    RemoveReports(subject, job, reports);
    SweepsCompose(t, job, root, left, fixed, subject.tree, reports);
    outcome := Ran(output);
  }

  lemma SweepsCompose(t: Tree, job: Job, root: Path, left: Tree, fixed: Tree, after: Tree, reports: set<Path>)
    requires Ready(t, job) && CrateRoot(t) == Some(root)
    requires forall p :: Look(fixed, p) == FixedAt(t, job, root, left, p)
    requires reports == Reports(t, p => job.lets(ListBefore(p)))
    requires forall p :: Look(after, p) ==
               if IsReport(p) && IsFile(fixed, p) && job.lets(ListAfter(p)) && p !in reports
                  && job.lets(RemoveReport(p))
               then None else Look(fixed, p)
    ensures forall p :: Look(after, p) == Left(t, job, left, p)
  {
    HeadsApart();
    forall p ensures Look(after, p) == Left(t, job, left, p) {
      assert Look(fixed, p) == FixedAt(t, job, root, left, p);
    }
  }

  // ----- What is left behind -----

  /** What the tool may touch: its output directories, the build directory, and crash reports of its own. */
  predicate ToolOwns(shown: Tree, p: Path) {
    Under(VERIF, p) || Under(CACHE, p) || Under(TARGET, p) || (IsReport(p) && p !in shown)
  }

  ghost predicate Confined(shown: Tree, left: Tree) {
    Proper(left) && forall p :: !ToolOwns(shown, p) ==> Look(left, p) == Look(shown, p)
  }

  /** Where the tool's own changes rightly stay: the build directory and output directories already there. */
  predicate Stays(t: Tree, p: Path) {
    Under(TARGET, p) || (Under(VERIF, p) && VERIF in t) || (Under(CACHE, p) && CACHE in t)
  }

  /** Everything else is as it was, and no harness is left, not even one a killed run had left. */
  ghost predicate Restored(t: Tree, job: Job, after: Tree) {
    forall p :: !Stays(t, p) ==> Look(after, p) == if p == HarnessPath(job) then None else Look(t, p)
  }

  predicate DirUndone(t: Tree, left: Tree, dir: Path, lets: bool) {
    dir in t || dir !in left || (left[dir].Dir? && lets)
  }

  /**
   A new report goes if it is a file the second listing has and it can be removed; an earlier one stays
   unless the first listing missed it and all of that holds of it.
   */
  predicate ReportUndone(t: Tree, job: Job, left: Tree, p: Path) {
    var removed := IsFile(left, p) && job.lets(ListAfter(p)) && job.lets(RemoveReport(p));
    if p in t then job.lets(ListBefore(p)) || !removed else removed
  }

  /** What provreq wrote itself is undone: the root, the harness and the configuration it supplied. */
  predicate OwnUndone(t: Tree, job: Job) {
    job.lets(RestoreRoot) && job.lets(RemoveHarness) && (Configured(t, job) ==> job.lets(RemoveConfig))
  }

  /** Every undo step that had something to undo undid it. */
  ghost predicate Undone(t: Tree, job: Job, left: Tree) {
    && OwnUndone(t, job)
    && DirUndone(t, left, VERIF, job.lets(RemoveVerif))
    && DirUndone(t, left, CACHE, job.lets(RemoveCache))
    && forall p <- left :: IsReport(p) ==> ReportUndone(t, job, left, p)
  }

  lemma ShownAt(t: Tree, job: Job, p: Path)
    requires Proper(t) && StartsWith(job.name, "provreq_") && Attached(t, job)
    ensures p != CrateRoot(t).value && p != HarnessPath(job) && p != CONFIG ==> Look(Shown(t, job), p) == Look(t, p)
    ensures Look(Shown(t, job), HarnessPath(job)) == Some(File(job.source))
    ensures Look(Shown(t, job), CrateRoot(t).value) ==
            Some(File(WithModule(t[CrateRoot(t).value].content, job.name)))
    ensures Look(Shown(t, job), CONFIG) ==
            if Configured(t, job) then Some(File(job.installed.value)) else Look(t, CONFIG)
  {
    OnePlace(job, CrateRoot(t).value);
    OnePlace(job, HarnessPath(job));
  }

  /** The tool left the root where it can be written back, and the harness and configuration alone. */
  lemma ConfinedKeepsOurs(t: Tree, job: Job, left: Tree, p: Path)
    requires Proper(t) && StartsWith(job.name, "provreq_") && Attached(t, job)
    requires Confined(Shown(t, job), left)
    requires p == CrateRoot(t).value || p == HarnessPath(job) || p == CONFIG
    ensures Look(left, p) == Look(Shown(t, job), p)
    ensures p == CrateRoot(t).value ==> CanWrite(left, p) && !Swept(t, job, left, p)
  {
    OnePlace(job, p);
    assert !ToolOwns(Shown(t, job), p);
    ShownAt(t, job, p);
  }

  lemma ReportAt(t: Tree, job: Job, left: Tree, after: Tree, p: Path)
    requires Proper(t) && StartsWith(job.name, "provreq_") && Attached(t, job)
    requires Confined(Shown(t, job), left) && IsReport(p)
    requires Look(after, p) == Left(t, job, left, p)
    ensures (Look(after, p) == Look(t, p)) <==> (p in left ==> ReportUndone(t, job, left, p))
  {
    OnePlace(job, p);
    ShownAt(t, job, p);
    OnePlace(job, CrateRoot(t).value);
    assert p in t ==> !ToolOwns(Shown(t, job), p);
  }

  lemma OutputAt(t: Tree, job: Job, left: Tree, after: Tree, dir: Path, p: Path)
    requires Proper(t) && StartsWith(job.name, "provreq_") && Attached(t, job)
    requires Confined(Shown(t, job), left)
    requires dir == VERIF || dir == CACHE
    requires dir !in t && Under(dir, p)
    requires Look(after, p) == Left(t, job, left, p)
    ensures Look(t, p) == None
    ensures DirUndone(t, left, dir, job.lets(if dir == VERIF then RemoveVerif else RemoveCache)) ==>
              Look(after, p) == None
    ensures p == dir && Look(after, p) == None ==>
              DirUndone(t, left, dir, job.lets(if dir == VERIF then RemoveVerif else RemoveCache))
  {
    OnePlace(job, p);
    OnePlace(job, CrateRoot(t).value);
    NothingUnderNothing(t, dir, p);
    if dir !in left {
      NothingUnderNothing(left, dir, p);
    }
  }

  /**
   A run that reached the tool puts the subject back exactly when every undo step that had something to
   undo undid it, whatever the tool did inside its own outputs: the crate root byte for byte, no harness,
   no configuration or output directory that was not there, and every crash report of the operator's.
   */
  lemma RestoredExactly(t: Tree, job: Job, tool: Tool, after: Tree, outcome: Outcome)
    requires Proper(t) && StartsWith(job.name, "provreq_")
    requires Ends(t, job, tool, after, outcome) && outcome.Ran?
    requires Confined(Shown(t, job), tool(Shown(t, job)).0)
    ensures Restored(t, job, after) <==> Undone(t, job, tool(Shown(t, job)).0)
  {
    var left := tool(Shown(t, job)).0;
    if Undone(t, job, left) {
      forall p | !Stays(t, p) ensures Look(after, p) == if p == HarnessPath(job) then None else Look(t, p) {
        UndoneRestores(t, job, left, after, p);
      }
    } else {
      NotUndoneShows(t, job, left, after);
    }
  }

  /** What a run on a working machine finds: directories where the tool makes directories, files for reports. */
  ghost predicate UsualOutputs(t: Tree, left: Tree) {
    && (VERIF in left && VERIF !in t ==> left[VERIF].Dir?)
    && (CACHE in left && CACHE !in t ==> left[CACHE].Dir?)
    && forall p <- left :: IsReport(p) && p !in t ==> left[p].File?
  }

  /** On a machine that lets everything through, a run restores the subject whatever a confined tool leaves. */
  lemma WorkingMachineRestores(t: Tree, job: Job, tool: Tool, after: Tree, outcome: Outcome)
    requires Proper(t) && StartsWith(job.name, "provreq_")
    requires Ends(t, job, tool, after, outcome) && outcome.Ran?
    requires Confined(Shown(t, job), tool(Shown(t, job)).0) && UsualOutputs(t, tool(Shown(t, job)).0)
    requires forall attempt :: job.lets(attempt)
    ensures Restored(t, job, after)
  {
    WorkingMachineUndoes(t, job, tool(Shown(t, job)).0);
    RestoredExactly(t, job, tool, after, outcome);
  }

  lemma WorkingMachineUndoes(t: Tree, job: Job, left: Tree)
    requires UsualOutputs(t, left) && forall attempt :: job.lets(attempt)
    ensures Undone(t, job, left)
  {
    forall p | p in left && IsReport(p) ensures ReportUndone(t, job, left, p) {
    }
  }

  lemma UndoneRestores(t: Tree, job: Job, left: Tree, after: Tree, p: Path)
    requires Proper(t) && StartsWith(job.name, "provreq_") && Attached(t, job)
    requires Confined(Shown(t, job), left) && Undone(t, job, left)
    requires Look(after, p) == Left(t, job, left, p) && !Stays(t, p)
    ensures Look(after, p) == if p == HarnessPath(job) then None else Look(t, p)
  {
    OnePlace(job, p);
    ShownAt(t, job, p);
    if p == CrateRoot(t).value || p == HarnessPath(job) || p == CONFIG {
      ConfinedKeepsOurs(t, job, left, p);
    } else if Under(VERIF, p) {
      OutputAt(t, job, left, after, VERIF, p);
    } else if Under(CACHE, p) {
      OutputAt(t, job, left, after, CACHE, p);
    } else if IsReport(p) {
      ReportAt(t, job, left, after, p);
    } else {
      assert !ToolOwns(Shown(t, job), p);
    }
  }

  lemma NotUndoneShows(t: Tree, job: Job, left: Tree, after: Tree)
    requires Proper(t) && StartsWith(job.name, "provreq_") && Attached(t, job)
    requires Confined(Shown(t, job), left) && !Undone(t, job, left)
    requires forall p :: Look(after, p) == Left(t, job, left, p)
    ensures !Restored(t, job, after)
  {
    if !OwnUndone(t, job) {
      OwnNotUndoneShows(t, job, left, after);
    } else if !DirUndone(t, left, VERIF, job.lets(RemoveVerif)) {
      OnePlace(job, VERIF);
      OutputAt(t, job, left, after, VERIF, VERIF);
      assert Look(after, VERIF) != Look(t, VERIF);
    } else if !DirUndone(t, left, CACHE, job.lets(RemoveCache)) {
      OnePlace(job, CACHE);
      OutputAt(t, job, left, after, CACHE, CACHE);
      assert Look(after, CACHE) != Look(t, CACHE);
    } else {
      var p :| p in left && IsReport(p) && !ReportUndone(t, job, left, p);
      OnePlace(job, p);
      ReportAt(t, job, left, after, p);
      assert Look(after, p) != Look(t, p);
    }
  }

  lemma OwnNotUndoneShows(t: Tree, job: Job, left: Tree, after: Tree)
    requires Proper(t) && StartsWith(job.name, "provreq_") && Attached(t, job)
    requires Confined(Shown(t, job), left) && !OwnUndone(t, job)
    requires forall p :: Look(after, p) == Left(t, job, left, p)
    ensures !Restored(t, job, after)
  {
    var p :=
      if !job.lets(RestoreRoot) then CrateRoot(t).value
      else if !job.lets(RemoveHarness) then HarnessPath(job)
      else CONFIG;
    OnePlace(job, p);
    ConfinedKeepsOurs(t, job, left, p);
    ShownAt(t, job, p);
    WithModuleDiffers(t[CrateRoot(t).value].content, job.name);
    assert Look(after, p) == Left(t, job, left, p);
    assert Look(after, p) != if p == HarnessPath(job) then None else Look(t, p);
  }

  lemma WithModuleDiffers(original: string, name: string)
    ensures WithModule(original, name) != original
  {
    assert |WithModule(original, name)| > |original|;
  }

  /**
   A run that did not reach the tool touches nothing but the harness file, and leaves even that as it was
   unless it wrote one: then the file is gone, also if it was a stale one, or is stuck as written.
   */
  lemma RefusedExactly(t: Tree, job: Job, tool: Tool, after: Tree, outcome: Outcome)
    requires Ends(t, job, tool, after, outcome) && !outcome.Ran?
    ensures forall p :: p != HarnessPath(job) ==> Look(after, p) == Look(t, p)
    ensures after == t <==>
              || !Written(t, job)
              || Look(t, HarnessPath(job)) == if job.lets(UndoHarness) then None else Some(File(job.source))
  {
    var path := HarnessPath(job);
    assert Look(t, path) == Some(File(job.source)) ==> t[path := File(job.source)] == t;
    assert path !in t ==> t - {path} == t;
    assert after == t ==> Look(after, path) == Look(t, path);
  }

  /**
   Whatever fails and whatever the tool does, what is the operator's own survives: the crate root keeps
   its text, at worst with the `mod` line still after it, and no other file outside the tool's outputs
   changes, not even one of the harness's name that provreq did not write.
   */
  lemma OperatorsFilesSurvive(t: Tree, job: Job, tool: Tool, after: Tree, outcome: Outcome, p: Path)
    requires Proper(t) && StartsWith(job.name, "provreq_")
    requires Ends(t, job, tool, after, outcome)
    requires Attached(t, job) ==> Confined(Shown(t, job), tool(Shown(t, job)).0)
    requires p in t && (p == HarnessPath(job) ==> !IsGenerated(t, p, job.lets(ReadHarness)))
    requires !Under(VERIF, p) && !Under(CACHE, p) && !Under(TARGET, p)
    ensures CrateRoot(t) == Some(p) ==>
              Look(after, p) == Look(t, p)
              || (t[p].File? && Look(after, p) == Some(File(WithModule(t[p].content, job.name))))
    ensures CrateRoot(t) != Some(p) && !IsReport(p) ==> Look(after, p) == Look(t, p)
    ensures IsReport(p) && job.lets(ListBefore(p)) ==> Look(after, p) == Look(t, p)
  {
    OnePlace(job, p);
    if p == HarnessPath(job) {
      BlockedExactly(t, p, job.lets(ReadHarness));
    } else if Attached(t, job) {
      RanKeepsFile(t, job, tool(Shown(t, job)).0, after, p);
    }
  }

  lemma RanKeepsFile(t: Tree, job: Job, left: Tree, after: Tree, p: Path)
    requires Proper(t) && StartsWith(job.name, "provreq_") && Attached(t, job)
    requires Confined(Shown(t, job), left) && Look(after, p) == Left(t, job, left, p)
    requires p in t && p != HarnessPath(job)
    requires !Under(VERIF, p) && !Under(CACHE, p) && !Under(TARGET, p)
    ensures CrateRoot(t) == Some(p) ==>
              Look(after, p) == Look(t, p)
              || (t[p].File? && Look(after, p) == Some(File(WithModule(t[p].content, job.name))))
    ensures CrateRoot(t) != Some(p) && !IsReport(p) ==> Look(after, p) == Look(t, p)
    ensures IsReport(p) && job.lets(ListBefore(p)) ==> Look(after, p) == Look(t, p)
  {
    OnePlace(job, p);
    OnePlace(job, CrateRoot(t).value);
    ShownAt(t, job, p);
    assert !ToolOwns(Shown(t, job), p);
  }

  /**
   A listing that fails is read as an empty one, so a crash report that was there before the run is lost
   exactly when the first listing missed it and the second did not.
   */
  lemma ReportLostExactly(t: Tree, job: Job, tool: Tool, after: Tree, outcome: Outcome, p: Path)
    requires Proper(t) && StartsWith(job.name, "provreq_")
    requires Ends(t, job, tool, after, outcome) && outcome.Ran?
    requires Confined(Shown(t, job), tool(Shown(t, job)).0)
    requires IsReport(p) && IsFile(t, p) && job.lets(RemoveReport(p))
    ensures p !in after <==> !job.lets(ListBefore(p)) && job.lets(ListAfter(p))
  {
    var left := tool(Shown(t, job)).0;
    assert Look(after, p) == Left(t, job, left, p);
    ReportAt(t, job, left, after, p);
    ShownAt(t, job, p);
    OnePlace(job, p);
    OnePlace(job, CrateRoot(t).value);
    assert Look(left, p) == Look(t, p) by { assert !ToolOwns(Shown(t, job), p); }
  }

  predicate HasReportName(p: Path, middle: string) {
    p == ["rustc-ice-" + middle + ".txt"]
  }

  /** A crash report is known by its name alone. */
  lemma ReportIs(p: Path)
    ensures IsReport(p) <==> exists middle :: HasReportName(p, middle)
  {
    if IsReport(p) {
      ReportIsNamed(p);
    }
    if middle :| HasReportName(p, middle) {
      NamedIsReport(p, middle);
    }
  }

  lemma NamedIsReport(p: Path, middle: string)
    requires HasReportName(p, middle)
    ensures IsReport(p)
  {
    var name := p[0];
    assert name == "rustc-ice-" + (middle + ".txt");
    assert name[|name| - 4..] == ".txt";
  }

  lemma ReportIsNamed(p: Path)
    requires IsReport(p)
    ensures exists middle :: HasReportName(p, middle)
  {
    var name := p[0];
    var n := |name|;
    assert n >= 10 && forall k :: 0 <= k < 10 ==> name[k] == "rustc-ice-"[k] != '.';
    assert name[n - 4..][0] == name[n - 4] == '.';
    assert name[..10] == "rustc-ice-" && name[n - 4..] == ".txt";
    assert name == "rustc-ice-" + name[10..n - 4] + ".txt";
    assert HasReportName(p, name[10..n - 4]);
  }

  /** A crash report that was not there before the run is gone after it. */
  lemma NewReportIsGone(t: Tree, job: Job, tool: Tool, after: Tree, outcome: Outcome, middle: string)
    requires Proper(t) && StartsWith(job.name, "provreq_")
    requires Ends(t, job, tool, after, outcome) && outcome.Ran?
    requires var p := ["rustc-ice-" + middle + ".txt"];
             p !in t && IsFile(tool(Shown(t, job)).0, p) && job.lets(ListAfter(p)) && job.lets(RemoveReport(p))
    ensures ["rustc-ice-" + middle + ".txt"] !in after
  {
    var left, p := tool(Shown(t, job)).0, ["rustc-ice-" + middle + ".txt"];
    assert HasReportName(p, middle);
    ReportIs(p);
    OnePlace(job, p);
    OnePlace(job, CrateRoot(t).value);
    assert Look(after, p) == Left(t, job, left, p);
  }

  lemma WriteKeepsProper(t: Tree, p: Path, content: string)
    requires Proper(t) && CanWrite(t, p)
    ensures Proper(t[p := File(content)])
  {
  }

  /** A tool that writes nothing keeps to its own outputs, and then there is nothing that cannot be undone. */
  lemma IdleToolIsRestored(t: Tree, job: Job)
    requires Proper(t) && StartsWith(job.name, "provreq_") && Attached(t, job)
    requires forall attempt :: job.lets(attempt)
    ensures Confined(Shown(t, job), Shown(t, job)) && Undone(t, job, Shown(t, job))
  {
    ShownIsProper(t, job);
    forall p | p in Shown(t, job) && (p == VERIF || p == CACHE || IsReport(p)) ensures p in t {
      OutputsAsBefore(t, job, p);
    }
  }

  lemma OutputsAsBefore(t: Tree, job: Job, p: Path)
    requires Proper(t) && StartsWith(job.name, "provreq_") && Attached(t, job)
    requires p == VERIF || p == CACHE || IsReport(p)
    ensures Look(Shown(t, job), p) == Look(t, p)
  {
    OnePlace(job, p);
    ShownAt(t, job, p);
  }

  lemma ShownIsProper(t: Tree, job: Job)
    requires Proper(t) && StartsWith(job.name, "provreq_") && Attached(t, job)
    ensures Proper(Shown(t, job))
  {
    var root, path := CrateRoot(t).value, HarnessPath(job);
    var written := t[path := File(job.source)];
    RootWritable(t, job, root);
    WriteKeepsProper(t, path, job.source);
    WriteKeepsProper(written, root, WithModule(t[root].content, job.name));
    if Configured(t, job) {
      WriteKeepsProper(written[root := File(WithModule(t[root].content, job.name))], CONFIG, job.installed.value);
    }
  }

  function PlainCrate(original: string): Tree {
    map[["src"] := Dir, LIB := File(original)]
  }

  /** The smallest crate with a library is one such a run reaches the tool on. */
  lemma PlainCrateReachesTheTool(original: string, job: Job)
    requires StartsWith(job.name, "provreq_") && job.installed.Some? && forall attempt :: job.lets(attempt)
    ensures Proper(PlainCrate(original)) && Attached(PlainCrate(original), job)
  {
    PlainIsProper(original);
    var t, path := PlainCrate(original), HarnessPath(job);
    RootIsNotHarness(job);
    assert |path| == 2 && |["src"]| == 1 && path[..1] == ["src"];
    assert LIB in t && path !in t && IsDir(t, path[..1]);
  }

  lemma PlainIsProper(original: string)
    ensures Proper(PlainCrate(original))
  {
    assert LIB[..1] == ["src"] && ["src"][..0] == [];
  }
}
