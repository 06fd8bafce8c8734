# Verified model of provreq

provreq takes a requirement written in a small property language (PRL), grounds its symbols in a subject
repository, lowers each claim to a harness for a proof engine, runs the engine and reports what came back.
This project models the parts of it where a mistake would make a verdict dishonest or damage the subject, and
proves what each of them promises. `dafny verify dfyconfig.toml` checks everything.

| area | files |
|---|---|
| the claim compiler (`src/lowering.rs`) | `Prl`, `ClaimVariables`, `GateCheck`, `Adapter`, `Lowering`, `HarnessText`, `LoweringConditions`, `Refusals`, `Meaning`, `Capture` |
| the two harnesses and the mirror channel (`src/kani.rs`, `src/creusot.rs`) | `Harness`, `EmptySort`, `Mirrors`, `NarrowedLink` |
| the JSONC stripper (`src/buildenv.rs`) | `Jsonc`, `JsoncTheorems`, `JsoncPositions` |
| source editing (`src/contract_draft.rs`) | `LineText`, `Markers`, `MarkerPlan`, `Imports`, `ImportInComment` |
| the draft lifecycle (`src/draft.rs`) | `Drafts`, `DraftSteps`, `Fingerprint` |
| grounding (`src/grounding.rs`) | `GroundingSchema`, `Grounding`, `GroundingAnswers`, `GroundedInputs` |
| running an engine inside the subject | `FileTree`, `KaniRun`, `CreusotRun` |
| shared server state (`src/app.rs`) | `ServerState` |
| the traceability report (`src/report.rs`) | `Report` |

`Basics` and `Text` hold the failure types and the parts of Rust's `str` API the code leans on.

## How the model reads the code

Code that only computes is a function here; code that loops over mutable state is a method whose contract ties it to a
function, and the theorems are about that function. An emitted claim is a sequence of tokens, and the subject is a
generic structure that says what every free function, inherent method, trait method and enum test answers; the meaning
of a claim and the meaning of emitted text are two separate evaluators over it. The gate that drafts go through, the
Rust, TLA+, event and step resolvers, the external tools and the Unicode alphanumeric table are parameters, so each
result holds for all of them. What the Rust resolver and a staged mirror are trusted with is asked only of the values
an assignment supplies: two types may share a method name and differ in its parameters, and a method may exist for the
values of one type alone. A run inside the subject takes, for each use of the file system whose failure the code
reports or ignores, whether it succeeds; a use that fails changes nothing.

## What the code turns out to do

Where the code differs from what it says of itself, the model follows the code:

- A binder captures a declared predicate of the same name and no arguments. The gate resolves such a bare name
  to the declaration (`src/prl/check.rs:48-54`), the lowering to the variable (`src/lowering.rs:405-413`).
  `Meaning.CaptureIsExact` says exactly when that changes the meaning, and `Capture.CaptureProvesAFalseClaim`
  gives a requirement whose parsed form the gate accepts, that lowers to a claim that holds, and is false.
- The blocks of a Kani harness run in order, so a sort without values makes the properties after it
  unreachable. `Harness.HarnessesAgreeExactly` says when Kani's harness holds and Creusot's does not, and
  `EmptySort.KaniHoldsOfAFalseRequirement` gives a requirement the gate accepts and a subject where that happens.
- A link of a mirror that is discharged only under a precondition is unsound as soon as the precondition
  excludes one value of the sort (`NarrowedLink.NarrowedLinkIsExact`).
- Redirecting a method onto its mirror can take its harness away: the call then needs a path to the method's module,
  which calling the method did not. `Mirrors.MirroredHarnessExistsExactly` says when.
- A staged import lands inside a header comment that spans lines (`ImportInComment.HeaderIsSplit`), exactly when
  the lines it is put after leave a block comment open; one that begins a comment or an inner attribute began it.
- `[1,,]` strips to `[1,]`. The stripper is idempotent exactly when no two commas are stacked.
- `mentions_word` finds `Int` in `IntInt`. It misses no whole identifier, and what else it finds is an identifier
  that ends in `IntInt` (`Imports.LogicTypesExactly`).
- Admitting never clears staleness, although the error for a stale draft asks for re-confirmation; only setting the
  candidate again does.
- Kani's run leaves an empty `tests/` when it made the directory and then could not write the harness, although
  its documentation says the harness leaves nothing behind on any path; so does a removal that fails
  (`KaniRun.RestoredExactly`).
- A directory listing that fails is read as an empty one, so Creusot's cleanup deletes a crash report it did not
  cause when only the first of its two listings failed.
- An LLM runtime can be replaced by a later publish, although it is documented to stay: two first publishes may
  both find none.
- Retiring a redundant test never costs its own requirement a rung, but a test tagged for two requirements may be
  all the other one has. Where no test is shared, acting on all the advice costs nothing.

## Model

| member | source | states |
|---|---|---|
| Prl.BindersContract | src/prl/ast.rs:178-234 | binder names are distinct, a written `each` leads, and the loop over the uses leaves each implicit variable with a sort exactly when all uses agree on it, in the order of first use |
| Prl.UsesAreVariables | src/prl/ast.rs:261-268 | no literal argument is ever closed over |
| ClaimVariables.BoundExactly | src/prl/ast.rs:178-268 | a name is bound exactly when it is the written one or, in an invariant of the code fragment, some argument is that name and it is an identifier that is no literal |
| ClaimVariables.SortExactly | src/prl/ast.rs:192-220 | an implicit variable ranges over a sort exactly when the first declaration of every predicate it is used in gives that very parameter that sort |
| ClaimVariables.WrittenLeads | src/prl/ast.rs:178-192 | a written `each` comes first with its own sort, and every other variable is implicit |
| ClaimVariables.InOrderOfUse | src/prl/ast.rs:192-220 | of two implicit variables the earlier one is used before every use of the later one |
| ClaimVariables.AtomsVisited | src/prl/ast.rs:270-310 | the walk over a property visits every operand of its pattern and every boundary of its scope, and nothing else |
| GateCheck.GatesExactly | src/prl.rs:52-66 | a parsed requirement gates exactly when it claims something, no two declarations share a name, every atom applies what is declared or is a bare bound variable, code is asked for invariants only, and only a model for reachability |
| Lowering.ResolvedType | src/lowering.rs:320-349 | the loop over type arguments yields the sort's type text, each part with its own path, or the first part no path reaches |
| Lowering.NonBooleanCondition | src/lowering.rs:239-279 | the visitor keeps the first variable used as a condition whose resolved sort is not `bool`, and no later one |
| Lowering.LowerArguments | src/lowering.rs:430-461 | the argument loop yields one text per argument in the parameter's mode, or the first term that is not a variable |
| Lowering.QualifierIsDropped | src/lowering.rs:165-198 | an item is named by what follows the last `::` of what the operator wrote, so a qualifier is not repeated |
| Lowering.HeadIs | src/lowering.rs:351-355 | an applied type is headed by what stands before its first `<` |
| LoweringConditions.AtomTextSucceeds | src/lowering.rs:391-461 | an atom lowers exactly when it has no guard and is a variable of the claim, or is bound, resolved, applied to as many variables as it has parameters, and reachable |
| LoweringConditions.AtomIsPrinted | src/lowering.rs:391-540 | the text of an atom that lowers is the printed form of the call its resolution asks for, arguments passed as the parameters are declared |
| LoweringConditions.LowersExactlyWhen | src/lowering.rs:112-163 | a property lowers exactly when scope, pattern, every atom, every binder's sort, every module path and every condition's sort are all in order |
| LoweringConditions.ClaimReadsBack | src/lowering.rs:357-381 | the text of a lowered claim parses back to the tree its pattern calls for, `never` as a negation |
| LoweringConditions.LoweredClaimIsClosed | src/lowering.rs:120-163 | every name in the text is quantified once, and a variable standing as a condition is quantified over the bare `bool` |
| Refusals.RefusalIsTrue | src/lowering.rs:112-540 | every refusal is true of the claim, its bindings and what they resolved to; a condition that is not `bool` is told first, then a scope, then a pattern or call, and a sort only when the claim itself lowers |
| HarnessText.ReadPrinted | src/lowering.rs:357-381 | the emitted grammar is unambiguous at every nesting: reading a printed tree returns that tree |
| HarnessText.PrintInjective | src/lowering.rs:468-540 | two trees with the same text are the same tree |
| Meaning.LoweringPreservesMeaning | src/lowering.rs:112-163 | in every subject and every assignment, the text of a lowered property evaluates to the truth value of its claim, for all call forms; signatures are trusted only for the calls made there |
| Meaning.ReadingsAgree | src/lowering.rs:405-413 | when no binder captures a declared name, the emitted reading and the gate's reading give every expression the same truth value |
| Meaning.CaptureIsExact | src/lowering.rs:405-413 | a bare declared name means something else in the text, in some subject, exactly when a binder has captured it |
| Capture.CaptureProvesAFalseClaim | src/prl/check.rs:19-77 | a requirement that passes the name-and-arity and the fragment check, whose emitted claim holds everywhere while the claim the gate read is false in some assignment |
| Harness.KaniLower | src/kani.rs:202-247 | the loop builds one block per lowered property in order, or returns the first refusal |
| Harness.CreusotLower | src/creusot.rs:94-133 | the loop builds one `proof_assert!` per lowered property in order, or returns the first refusal |
| Harness.HarnessesExistTogether | src/kani.rs:202-247 | either engine has a harness exactly when the requirement claims something and every property lowers |
| Harness.ClaimTextIsClosure | src/creusot.rs:215-228 | one lowered claim, quantified as written, is the universal closure of its property |
| Harness.CreusotAssertsRequirement | src/creusot.rs:94-133 | the Creusot harness asserts exactly the conjunction of the properties' closures |
| Harness.KaniBodyHolds | src/kani.rs:202-260 | the Kani body asserts each closure as far as the properties before it have assignments; no binder reaches past its own block |
| Harness.HoldInOrderMeans | src/kani.rs:217-227 | that is: the closure of every property all of whose predecessors have an assignment |
| Harness.HarnessesAgreeExactly | src/kani.rs:202-260 | the Creusot harness denotes the requirement and implies the Kani one; they differ exactly when some property fails and every failing one stands behind one without assignments |
| EmptySort.KaniHoldsOfAFalseRequirement | src/kani.rs:217-260 | a requirement that passes the name-and-arity and the fragment check, lowers, and is false of a subject on which its Kani harness holds |
| Harness.HarnessesAgree | src/kani.rs:202-260 | when every property has an assignment, both harnesses denote the same closed formula |
| Mirrors.WithMirrors | src/creusot.rs:153-210 | whatever the order of the visit, exactly the resolutions and bindings with a staged mirror are redirected to it |
| Mirrors.RedirectedExactly | src/creusot.rs:153-210 | a symbol is redirected to a mirror exactly when it is resolved, its first binding is for an item whose last segment and `_logic` make the mirror's name, and the staged text of its file has a function that starts with that name |
| Mirrors.MirrorNameIsItem | src/mirror_draft.rs:191-199 | the path a redirected claim writes ends in the mirror's own name |
| Mirrors.MirrorsPreserveMeaning | src/creusot.rs:153-210 | when each staged mirror equals its program function on the arguments an assignment gives it, the claim over the mirrors and its text have the truth value of the claim over the program there |
| Mirrors.MirroredLowersExactly | src/creusot.rs:153-210 | a redirected property lowers exactly when scope, pattern, sorts and conditions are in order and each call is bound, resolved, of the right arity and reachable: as a mirror by its module's path (and its enum's for a variant test), otherwise by its own form |
| Mirrors.MirroredHarnessExistsExactly | src/creusot.rs:94-210 | a requirement with a harness over the program functions has one over the mirrors exactly when none of its calls is of a mirrored method whose item has no path |
| Mirrors.MirroredHarnessAssertsRequirement | src/creusot.rs:94-210 | the Creusot harness over the mirrors holds exactly when the requirement holds of the program functions, with links asked only on the values the sorts supply |
| GroundedInputs.ReachableSortsApart | src/grounding.rs:441-467 | in every draft a run reaches, no sort of a claim goes by the name of a resolved predicate, as the mirror channel needs |
| NarrowedLink.FullLinkIsTrusted | src/mirror_draft.rs:15-37 | a link on one type's method that covers the values of that type is all the channel asks for |
| NarrowedLink.NarrowedLinkIsExact | src/contract_draft.rs:46-67 | for any value type, any sort and any precondition, a link on a method narrowed by it lets a false claim be proved exactly when it excludes some value of the sort |
| Jsonc.StripCommentsLoop | src/buildenv.rs:232-275 | the loop with its flags and lookahead equals the five-state automaton |
| Jsonc.StripTrailingCommas | src/buildenv.rs:282-314 | the comma loop drops exactly the code commas followed, past whitespace, by a closing bracket |
| Jsonc.StripJsonc | src/buildenv.rs:232-275 | the two loops compose to the two automata |
| JsoncTheorems.CommentsAreGone | src/buildenv.rs:232-275 | no comment opener is left outside strings, whatever state the scan started in |
| JsoncTheorems.UnchangedWithoutComments | src/buildenv.rs:232-275 | the comment pass changes nothing exactly when there is no comment |
| JsoncTheorems.StripCommentsIdempotent | src/buildenv.rs:232-275 | a second comment pass finds nothing |
| JsoncTheorems.NewlinesKept | src/buildenv.rs:250-256 | the only newlines lost are those inside block comments |
| JsoncTheorems.StripKeepsLiterals | src/buildenv.rs:225-231 | every string literal outside a comment survives character for character, and nothing else becomes one |
| JsoncTheorems.StripOnlyDeletes | src/buildenv.rs:232-314 | the output is the input with characters deleted |
| JsoncTheorems.TrailingLeftExactlyWhenStacked | src/buildenv.rs:282-314 | a trailing comma is left behind exactly when two commas were stacked |
| JsoncTheorems.StripUnchangedExactly | src/buildenv.rs:232-314 | the stripper changes nothing exactly when there is neither a comment nor a trailing comma |
| JsoncTheorems.StripIdempotentExactly | src/buildenv.rs:232-314 | a second run changes nothing exactly when no two commas were stacked once comments are gone |
| JsoncTheorems.StackedCommasNeedTwoRuns | src/buildenv.rs:282-314 | `[1,,]` gives `[1,]`, which gives `[1]` |
| JsoncPositions.StripByPosition | src/buildenv.rs:277-314 | of the uncommented text exactly the commas are deleted that stand outside strings with whitespace at most before a `}` or `]`, every other character stays, and none is left over unless two commas stood side by side |
| Markers.ApplyToSource | src/contract_draft.rs:310-330 | inserting from the highest line down equals placing every attribute at once; drafts beyond the file are ignored |
| Markers.DraftsCommute | src/contract_draft.rs:310-330 | drafts for distinct lines may be given in any order |
| Markers.AboveKeepsIndentation | src/contract_draft.rs:318-324 | every attribute stands at its target's own indentation, however many share the line |
| Markers.LinesOfEdited | src/contract_draft.rs:310-330 | the edited file's lines are the source's, each under exactly its own attributes |
| Markers.EditIsUndone | src/contract_draft.rs:310-330 | deleting the inserted lines gives back a CR-free source character for character |
| LineText.LinesFirst | src/contract_draft.rs:311 | reading by lines cuts at each `\n`, takes a `\r` before it along, and gives no line after a final one |
| MarkerPlan.AlreadyMarked | src/contract_draft.rs:283-305 | the walk upwards equals its specification over the lines above the item |
| MarkerPlan.MarkedExactly | src/contract_draft.rs:283-305 | a function reads as marked exactly when an attribute above it says `logic` or `pure` and only blank lines, comments and attributes stand in between |
| MarkerPlan.PlanMarkers | src/contract_draft.rs:251-279 | one draft for every place a predicate resolved to that does not read as marked, no other, in the order the places are first resolved to |
| MarkerPlan.MarkedAfterApplying | src/contract_draft.rs:251-330 | afterwards a function reads as marked exactly when it did, was drafted, or shares its run of comments and attributes with one that was |
| MarkerPlan.PlanIsItsOwnFixpoint | src/contract_draft.rs:251-330 | planning again over the edited sources drafts nothing |
| Imports.MentionsWord | src/contract_draft.rs:156-171 | the loop equals its specification, which forgets the character before a restart |
| Imports.MentionsIsComplete | src/contract_draft.rs:156-171 | no whole identifier is missed |
| Imports.MentionsExactly | src/contract_draft.rs:156-171 | the search says yes exactly for an occurrence that ends a word and starts one or follows another occurrence |
| Imports.MentionsWholeOrDoubled | src/contract_draft.rs:156-171 | the search of a whole text says yes exactly when the word is a whole identifier somewhere or stands twice in a row at the end of one |
| Imports.LogicTypesExactly | src/contract_draft.rs:147-171 | the `Int` import goes in exactly for a logic marker over a text with `Int` as a whole identifier or doubled at an identifier's end; the two searches disagree exactly when only the second occurs |
| Imports.DoubledWordCounts | src/contract_draft.rs:156-171 | `IntInt` counts as `Int` although it holds no such identifier |
| Imports.ImportPlaced | src/contract_draft.rs:173-205 | at most one line is added, the file's lines stay in order, and the import follows the longest skippable prefix |
| Imports.ImportAfterHeader | src/contract_draft.rs:173-205 | a line that says the import, however indented, is enough; otherwise it follows exactly the leading lines that, past their indentation, are blank, `//!`, `#![`, `/*` or `//` but not `///` |
| Imports.NewlineAtEnd | src/contract_draft.rs:200-204 | the file ends in a newline exactly when it did or was empty |
| Imports.ImportsAreThere | src/contract_draft.rs:124-154 | after staging, the marker's own macros are imported, and `Int` is when the text names it |
| ImportInComment.ImportInCommentExactly | src/contract_draft.rs:178-197 | the import stands inside a block comment exactly when the lines before it leave one open; then a line that begins a comment or an inner attribute began what is open, so it never does when each such line closes what it opens |
| ImportInComment.HeaderIsSplit | src/contract_draft.rs:178-197 | a header comment over two lines is split by the import |
| Imports.StageImportsIdempotent | src/contract_draft.rs:124-152 | staging prelude and logic types twice is staging them once |
| Imports.StagedFileReadsAsMarked | src/contract_draft.rs:124-330 | after markers and then imports, every drafted function stands at its shifted line, directly under its marker, and reads as marked there |
| Drafts.RunsAreSound | src/draft.rs:244-530 | in every run, an admitted candidate passes the gate at the recorded tier, and bindings are for distinct symbols that candidate declares |
| Drafts.WritebackExactly | src/draft.rs:421-457 | write-back goes through exactly when the last candidate was set against the item's current revision, was not discarded, and was admitted since; it stamps that candidate |
| Drafts.NothingAdmittedWithoutSet | src/draft.rs:381-415 | without a candidate in force nothing is admitted |
| DraftSteps.GroundsExactly | src/draft.rs:491-530 | grounding goes through exactly when there is a draft with a candidate that gates, the spec has an `=` with something on both sides, its left side is a predicate or sort the candidate speaks of, and a fidelity asked for parses |
| DraftSteps.GroundMakes | src/draft.rs:491-549 | it binds the trimmed left side to the trimmed right side, in the first declared category, at the fidelity asked for or its world's default, in place of an earlier binding of that symbol, and changes nothing else |
| DraftSteps.OthersUntouched | src/draft.rs:244-480 | a step touches no draft but its own |
| DraftSteps.OnePartChanges | src/draft.rs:244-415 | opening keeps a draft as it is, a re-check changes its gate outcome, grounding its bindings, admitting its admission, each alone, and setting a candidate starts it over |
| DraftSteps.NewDraftsAreEmpty | src/draft.rs:244-300 | a draft comes into being by opening or setting, at the item's revision, pending and without bindings |
| DraftSteps.WritebackStamps | src/draft.rs:421-457 | the annotation carries the candidate, and reviewer, time and tier of the last admission of it that went through |
| Fingerprint.EncodeInjective | src/draft.rs:167-185 | with `=`-free symbols the encoding of a binding loses nothing |
| Fingerprint.FormalDataExactly | src/draft.rs:167-185 | the hashed data of two drafts is equal exactly when their candidates and their sets of bindings are |
| Fingerprint.ReachableDraftsFingerprint | src/draft.rs:491-530 | every draft a run reaches has the distinct, `=`-free symbols the fingerprint needs |
| Fingerprint.SortedIsUnique | src/draft.rs:167-185 | sorting makes the hashed list independent of grounding order |
| GroundingSchema.BindableSorts | src/grounding.rs:141-170 | every sort spoken of is listed once, nothing else is, and they come in the order of first mention |
| GroundingSchema.BindableExactly | src/grounding.rs:123-170 | a symbol is bindable exactly when it names an event or a state or is a sort that is declared, is a parameter's type, or is ranged over |
| Grounding.ExpectedParamTypes | src/grounding.rs:213-265 | one entry per declared parameter; an entry is a type exactly when some use contributes one and all that contribute agree |
| Grounding.ExpectedTypesAnyOrder | src/grounding.rs:213-265 | the answer does not depend on the order or repetition of properties |
| Grounding.ExpectedBySet | src/grounding.rs:213-265 | a position depends only on which uses there are, in whatever order the atoms come |
| Grounding.ConflictStays | src/grounding.rs:225-262 | a position two uses disagree on stays unknown |
| GroundingAnswers.ExpectedTypesAre | src/grounding.rs:213-265 | a position is expected to have a type exactly when that is the one type put there: by a variable whose sort is resolved and first bound to it |
| Grounding.WorldKeys | src/grounding.rs:417-534 | each world's map answers exactly for the symbols bound in that world, sorts and predicates apart |
| Grounding.Decide | src/grounding.rs:539-613 | the verdict is grounded exactly when nothing is unbound and every binding resolves in its own world; a parked one gives one reason per unbound symbol and then one per unresolved binding, in order |
| Grounding.ReasonsAre | src/grounding.rs:539-613 | a symbol is among the reasons exactly when it is unbound or one of its bindings does not resolve |
| Grounding.DescribeAgreesExactly | src/grounding.rs:388-414 | `describe` and the verdict agree on a binding whatever the subject holds, exactly when no world asked earlier binds the same symbol |
| Grounding.ReachableDraftsAgree | src/grounding.rs:388-414 | for every draft a run reaches, the verdict is grounded exactly when nothing is unbound and every binding is described as resolved |
| GroundingAnswers.GroundedExactly | src/grounding.rs:417-613 | for every draft a run reaches, the verdict is grounded exactly when all that the requirement speaks of is bound and each binding's own resolver, asked for its observable with the declared arity or the expected types, answers that it is there |
| FileTree.HarnessName | src/lowering.rs:83-89 | the name is `provreq_` and the id with letters lower-cased and every other character an underscore, so it is an identifier and one path component |
| Text.TrimTakesSpace | src/draft.rs:508 | trimming takes the 25 characters of the Unicode property White_Space from both ends, all of them and nothing else |
| KaniRun.Run | src/kani.rs:311-356 | every exit, the tree the tool is given, and what is at each path afterwards |
| KaniRun.RunsExactly | src/kani.rs:311-341 | Kani is started exactly when `tests/` is there or can be made, no file but one that starts with the generated-harness line is at the harness's place, and the harness can be written; any other file there is refused and nothing changes |
| KaniRun.ToolSees | src/kani.rs:311-341 | it finds the harness in `tests/` and all else as it was |
| KaniRun.RestoredExactly | src/kani.rs:301-356 | whatever fails, a run that wrote its harness restores the subject exactly when the harness, and a `tests/` it made, can be removed, and one that did not exactly when it made no `tests/` |
| KaniRun.OnlyTestsIsLeft | src/kani.rs:301-356 | when the removals succeed, the subject is restored exactly unless `tests/` was absent, was made, and the harness could not be written; then an empty `tests/` stays |
| CreusotRun.Run | src/creusot.rs:274-393 | every exit, the tree the tool is given, and what is at each path afterwards |
| CreusotRun.RunsExactly | src/creusot.rs:274-349 | Creusot is started exactly when there is a readable crate root and a prover configuration, no file but one that starts with the generated-harness line is at the harness's place, and harness and `mod` line can be written; any other file there is refused and nothing changes |
| CreusotRun.ToolSees | src/creusot.rs:252-349 | it finds `src/lib.rs`, or else `src/main.rs`, followed by the harness's `mod` line under `cfg(creusot)`, the harness, a configuration, and all else as it was |
| CreusotRun.RestoreFixed | src/creusot.rs:358-375 | the fixed undo steps, each of which may fail, touch only their own places |
| CreusotRun.RemoveReports | src/creusot.rs:376-378 | the reports in the second listing and not in the first are removed one by one, and nothing else |
| CreusotRun.RestoredExactly | src/creusot.rs:262-393 | whatever the tool does in its own outputs, the subject is restored exactly when the root, harness and configuration are undone, new output directories can be removed, new reports are listed and removable files, and no earlier report was missed by the first listing alone |
| CreusotRun.WorkingMachineRestores | src/creusot.rs:262-393 | on a machine that lets everything through, a run restores the subject whatever a tool confined to its outputs leaves, as long as new output directories are directories and new reports are files |
| CreusotRun.PlainCrateReachesTheTool | src/creusot.rs:275-352 | a crate that is only a `src/lib.rs` is such a subject, also without a prover configuration of its own |
| CreusotRun.IdleToolIsRestored | src/creusot.rs:274-393 | where the harness could be attached, a tool that writes nothing meets what restoring asks of a tool: it keeps to its outputs, and they can all be undone |
| CreusotRun.RefusedExactly | src/creusot.rs:275-352 | a run that did not reach the tool touches only the harness file, and leaves that alone unless it wrote one |
| CreusotRun.OperatorsFilesSurvive | src/creusot.rs:265-272 | whatever fails, the crate root keeps its text, at worst with the `mod` line after it, and no other file outside the tool's outputs changes, not even one of the harness's name that was not generated |
| CreusotRun.ReportLostExactly | src/creusot.rs:446-460 | an earlier crash report is lost exactly when the first listing missed it and the second did not |
| CreusotRun.NewReportIsGone | src/creusot.rs:376-378 | a `rustc-ice-….txt` that was not there before, and that is listed and removable afterwards, is gone |
| ServerState.AppState.Publish | src/app.rs:221-244 | a publish nothing interrupts installs, marks ready, announces once, and keeps an existing runtime |
| ServerState.AppState.RecordSessionIdentity | src/app.rs:205-215 | the identity is appended trimmed, unless it is blank or already there |
| ServerState.PublishIsItsSteps | src/app.rs:221-244 | a publisher whose steps nothing interleaves with does what the whole publish does |
| ServerState.ReadyMeansAWorld | src/app.rs:299-309 | in every interleaving, after ready every snapshot holds a world |
| ServerState.NothingIsTakenBack | src/app.rs:205-244 | a world never disappears, and identities are append-only, trimmed, non-blank and distinct |
| ServerState.SnapshotAfterEvent | src/app.rs:221-309 | a snapshot after a publisher's event is that publisher's world or one installed later |
| ServerState.RuntimeKeptExactly | src/app.rs:246-292 | a runtime outlives every later publish exactly when no publisher that looked earlier is about to store another |
| ServerState.RuntimeCanBeReplaced | src/app.rs:246-271 | two first publishes can both find no runtime, and the second to store replaces the first one's |
| Report.ConservedExactly | src/report.rs:123-166 | in the assembled report every tag lands in exactly one row cell or among the orphans, with multiplicity, exactly when no tag's canonical id is claimed twice |
| Report.OrphansCount | src/report.rs:148-159 | a tag is an orphan exactly when no requirement claims its canonical id |
| Report.RowShows | src/report.rs:103-146 | a row shows its requirement, in scanning order the tags of either kind with its canonical id, each with file, line and symbol, and the verdict as proven, disproven or not determined |
| Report.OrphansShow | src/report.rs:148-159 | the orphans are, in scanning order, the tags whose canonical id nobody has, as they were tagged |
| Report.CanonicalIs | src/report.rs:98-103 | ids are compared without `-` and `_` and with ASCII letters upper-cased |
| Report.StrongestIsBest | src/report.rs:170-180 | the strongest basis is one some holding evidence of that correspondence has, and none ranks above it |
| Report.RecommendRetirements | src/report.rs:187-223 | the nested loop recommends, in order, exactly the located asserted tests a holding mechanical result matches or beats |
| Report.RedundantExactly | src/report.rs:187-223 | a test is redundant exactly when it holds, is located, and some holding mechanical result is proven, or model-checked when the test is at most that, or both are merely not falsified |
| Report.RetiringNeverLowersItsOwn | src/report.rs:182-223 | retiring every test recommended for a requirement leaves its strongest ranked basis where it was |
| Report.RetiringAllExactly | src/report.rs:182-223 | deleting every recommended test of the report keeps a requirement's best rung exactly when some result reaching it is neither a test another requirement was advised to retire nor one whose place carries a weaker redundant result |
| Report.OnlySharedTestsAreLost | src/report.rs:182-223 | with one result to a test, the rung stays exactly when some result reaching it is not a test another requirement was advised to retire |
| Report.NothingSharedNothingLost | src/report.rs:182-223 | where no test is shared, acting on every recommendation lowers no requirement |
| Report.SharedTestIsLost | src/report.rs:182-223 | a test redundant for one requirement can be all another has |

## Left out

- Process spawning, file contents beyond text, `cargo metadata`, git, HTTP, LLM backends and serialization: parameters or not modelled.
- Lexing, spacing and keyword identifiers of the emitted text: a claim is tokens, names are assumed to be identifiers, and types keep their structure instead of being text.
- Refusal and advice wording, and the text that surrounds a harness body.
- The PRL lexer and parser, the gate as the draft lifecycle calls it, and the Rust, TLA+, event and step resolvers: parameters.
- Creusot's and Kani's `classify`, build diagnostics, version checks and Kani's bounds: decision ladders over tool output that would only add easy members.
- The bounded domain Kani explores: a Kani assertion is given its unbounded meaning.
- Injectivity of harness names: punctuation and case collapse.
- Crash recovery of the crate root: a run that was killed leaves its `mod` line, and the next run keeps it.
- `exists()` checks that fail for lack of permission: the model's existence checks are exact, and a removal or write either succeeds or changes nothing.
- How many times the LLM runtime is built, the repository-handle cache, thumbnails and imports kept in the server state.
- Other tasks' timing inside one step: each lock is held for one step of the interleaving, and a broadcast is the moment it is sent.
- Markers.EditIsUndone: for sources without carriage returns, because reading a file by lines drops a `\r` before `\n`; so do Markers.LinesOfEdited and MarkerPlan.MarkedAfterApplying.
- ImportInComment.ImportInCommentExactly: reads nesting block comments, line comments and ordinary strings; raw strings and character literals in an inner attribute are not read.
- Capture.CaptureProvesAFalseClaim: the gate's parsing and its vacuity warnings, which refuse nothing, are not modelled.
- Mirrors.WithMirrors: visits the resolutions in an arbitrary order instead of key order, and MarkerPlan.PlanMarkers takes them as a sequence in key order.
- Drafts.RunsAreSound: is about the steps the program takes; the public `admit` without its gate is used only through `admit_gated`.
- Markers.ApplyToSource: the stable sort by descending line is a function, not an in-place sort.
- Report.ConservedExactly: compares id, kind, file and line, because an orphan does not carry the symbol.
