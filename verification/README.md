# Verified model of the research driver's auditors

The repository keeps a set of Python auditors beside an autonomous research driver. Each is a small algorithm under a
command line. This project models those algorithms in Dafny and proves what they are relied on for. File, git and
process access appear as inputs; instants are whole seconds, and rates, costs and statistics are exact.

The modules follow the source files:

- `order`, `seqs`, `dict`, `text`: sorting as Python's `sorted` does it, sequence facts, insertion-ordered dicts,
  strings.
- `wiring_audit`, `wiring_index`, `wiring_insert`, `wiring_registry`, `viapin`: the reachability search, the resolver of
  references, and the registry that is derived, inserted into, audited and repaired against the search.
- `whenceslow`, `whenceslow_plan`, `whenceslow_replay`: the digest-stamped result cache, the planner and the budgeted
  replay.
- `redattrib_fisher`, `redattrib`, `reddebt`: the exact test, the red episodes, the debt report.
- `capture_manifest`: the retention forecast against a simulation of the sweep.
- `mutant_remap`: finding a mutation again in an edited source.
- `dose_response_ranks`, `dose_response_spearman`, `dose_response_scopes`: ranks, correlation, and the two splits of
  logins.
- `bench_delegation`: the price of a sequence of requests, and the break-even of delegating.
- `fossil_ledger`: the union of captures and its append-only ledger.
- `readset`: which test nodes a change implicates, and merging recorded maps.
- `driver_health`: sessions of an event log. `fast_lane_sink`: the chunked writer.

Where the source loops or updates an object, the model has a method or a class whose contract equates the outcome with
a specification function, and lemmas state what the source promises about that function. Every lemma turns automatic
induction off, so each proof is the one written down.

## Where the code differs from its documentation

The model follows the code. Each case below names the lemma that shows the difference, by a concrete input or by saying
exactly when the two agree.

- `commit_invalidations` drops `pytest.ini` by its extension although every dependency closure holds it
  (`PytestIniIsMissed`, `SparedUnitsKeepEvidence`).
- A round's spend is not bounded by the larger of the budget and the cheapest uncovered cost once a unit's recorded cost
  is 0.0 (`FreeUnitBreaksTheBudget`); `WhenSpendIsBounded` says exactly when it is, `SpendBound` what the spend is in
  every case.
- `plan` returns a unit too long for the budget whenever it comes first, not only when nothing else fits
  (`DearComesFirst`; `WhenDearIsLastResort` and `WhenDearIsPicked` say exactly when).
- A round with a budget of exactly 0.0 stops after one free unit although all of them fit (`GreedyIsOptimal` says
  exactly when a round covers as many units as any choice the budget pays for).
- W006 reports a file "reached only as text inside a test", and W003 stays silent, on the nearest evidence alone; a
  module further from the root may import the file (`NearTextHidesImport`; `W003Is` and `W006Is` say exactly when they
  are reported, `WhenOnlyTestText` when the wording is right).
- `audit` and `undeclared` disagree on an entry point declared as `null`, and without a registry file
  (`UndeclaredIsW001`, `UndeclaredWithoutRegistry`).
- A proposed pin can be unpinned, when the evidence carries no line (`ProposedPinHolds`).
- `deleted_at_utc` looks at neither the skipped fires nor the period after `run` (`SkippedLaterFireIsNamed`,
  `ForecastIsEarliestLoss`).
- `chance_match_rate` divides time covered outside the span of the calls by that span, so it can exceed 1
  (`CoveredMoreThanTheSpan`, `CoveredOutsideTheSpan`; `WhenTotalIsInSpan` and `WhenTotalFitsTheSpan` say exactly when it
  is right and when it is at most 1).
- `break_even_R` returns 0.0 when delegation pays at once, also when it stops paying later (`PaysAtFirstOnly`,
  `WhenBreakEvenHolds`); its "never" is decided by S*d <= a + rho and a loss at the start,
  not by V <= rho + a (`WhenNever`, `ShortObservationsCanPay`).
- `closed_form_R` is not `break_even_R`: the numerators differ by r*(O + S*d - P) - w*(a + rho)
  (`ClosedFormDiffers`; `ClosedFormAgrees` says for every scenario whether the two agree).
- `serial_would_have_died` compares the calls of all sessions with a limit that each session has to itself
  (`DiedWithoutBatching`; `WhenSerialMeansDied` says exactly when it is right for every limit).
- `turns_all` is not what a whole-file count gives when two sessions share the identifier of a message
  (`WhenTurnsAreWholeFile`).

## Model

| member | source | states |
|---|---|---|
| WiringGraph.Graph.Expand | harness/wiring_audit.py:856-863 | expanding a file on demand gives exactly its edges into the node set and records them, and nothing else |
| WiringGraph.Graph.Closure | harness/wiring_audit.py:865-893 | the search returns exactly the files some route of references from a root reaches; a second call changes nothing |
| WiringGraph.Graph.Search | harness/wiring_audit.py:873-893 | run from seeded roots until its queue is empty, the loop leaves finished, sound tables |
| WiringGraph.SearchIsCorrect | harness/wiring_audit.py:865-893 | for finished tables: seen means reachable, the depth of a file is the length of a route to it, and no route is shorter |
| WiringGraph.ChainIsChain | harness/wiring_audit.py:895-906 | following the parent table from a seen file gives a chain of recorded edges that starts at a root, and its length is the depth of the file |
| WiringGraph.ChainIsRoute | harness/wiring_audit.py:895-906 | a chain visits the files of a route one longer than itself |
| WiringGraph.Graph.Why | harness/wiring_audit.py:895-906 | a route is printed exactly for reachable files; it is a valid chain of edges from a root, and no route is shorter |
| WiringGraph.Graph.BestIncoming | harness/wiring_audit.py:908-947 | the method picks the evidence its specification picks over all reached sources, and leaves the finished tables alone |
| WiringGraph.BestOverIsBest | harness/wiring_audit.py:908-947 | what is picked is evidence from a source and beats every other piece of evidence, so it is the unique minimum; nothing is picked only when there is none |
| WiringGraph.BetterSays | harness/wiring_audit.py:707-709 | nearer evidence wins; at one depth an import or module run beats a directory or joined path, those beat a name in text, and equals go by source name |
| WiringGraph.EvidenceSays | harness/wiring_audit.py:856-863 | evidence for a file comes from another file that refers to it, within the tree's code |
| WiringGraph.BestIsOneLevelUp | harness/wiring_audit.py:908-947 | for a reached file that is no root the best evidence exists and its source lies exactly one level nearer the roots |
| WiringIndex.Suffixes | harness/wiring_audit.py:594-598 | the nested loops file each path under each of its suffixes |
| WiringIndex.TableIs | harness/wiring_audit.py:594-604 | what is filed under a suffix is exactly the set of paths that end in it |
| WiringIndex.DirsAre | harness/wiring_audit.py:589-593 | the directories are exactly the proper, nonempty prefixes of tracked paths |
| WiringIndex.Index.ResolveReference | harness/wiring_audit.py:611-653 | the loop over shorter and shorter suffixes gives the verdict of the specification on the whole reference, the exact local hit first |
| WiringIndex.LongestSuffixDecides | harness/wiring_audit.py:639-653 | the verdict is about the longest suffix that any file or directory ends in: the file if exactly one file does, the directory if no file and exactly one directory does, an ambiguity if several, nothing only if no suffix resolves |
| WiringIndex.NormPathSays | harness/wiring_audit.py:630-638 | a plain path is unchanged, empty components and "." are dropped, ".." takes back the plain component before it, and a normal path stays normal |
| WiringIndex.LocalComesFirst | harness/wiring_audit.py:639-653 | a reference that names a file or directory beside its own file is that one; only otherwise is it looked up by its end |
| WiringIndex.JudgeSays | harness/wiring_audit.py:639-653 | an ambiguous answer lists exactly the candidates, in order |
| WiringIndex.ResolvedExists | harness/wiring_audit.py:611-653 | a resolved reference names a tracked file or directory that ends in a suffix of the reference, or is the exact local path |
| WiringIndex.FullPathResolves | harness/wiring_audit.py:611-653 | a full path resolves to its own file exactly when no other file ends in it; otherwise it is reported ambiguous |
| WiringIndex.OrderIsIrrelevant | harness/wiring_audit.py:584-653 | resolution depends on the sets of files and directories only, not on the order they were indexed in |
| WiringInsert.InsertEntries | harness/wiring_audit.py:1218-1243 | the loop that pops pending keys gives the weave of old entries and gaps of new ones |
| WiringInsert.InsertedKeepsExisting | harness/wiring_audit.py:1218-1243 | dropping the new keys from the result gives back the existing entries, all, in order |
| WiringInsert.InsertedKeys | harness/wiring_audit.py:1218-1243 | the result is a dict whose keys are the old ones and the new ones, once each |
| WiringInsert.InsertedGet | harness/wiring_audit.py:1218-1243 | each key looks up as the new value if it was added and as the old one otherwise |
| WiringInsert.InsertedBeforeFirstLarger | harness/wiring_audit.py:1218-1243 | each new key sits after every existing key before the first larger one, and before that one |
| WiringRegistry.Audit | harness/wiring_audit.py:986-1068 | the audit loops report exactly the specified list of findings, in order, after the search |
| WiringRegistry.FindingsAre | harness/wiring_audit.py:986-1068 | which findings an audit reports, one by one: stale prefixes, missing paths and the verdict on each entry point |
| WiringRegistry.EligibleSays | harness/wiring_audit.py:967-984 | audited are the tracked shell scripts and Python files with a main guard under no vendored and no frozen prefix |
| WiringRegistry.TestFileSays | harness/wiring_audit.py:727-730 | a Python file is a test by its name or by lying in a directory of tests |
| WiringRegistry.W001Is | harness/wiring_audit.py:1003-1016 | an entry point draws W001 exactly when it is not excluded and its lookup gives nothing or null |
| WiringRegistry.W002Is | harness/wiring_audit.py:1014-1022 | W002 is reported for a path exactly when it is an entry point not excluded, declared wired and not reachable by any route |
| WiringRegistry.W003Is | harness/wiring_audit.py:1023-1045 | W003 is reported for a path exactly when it is an eligible entry point, declared unwired or manual, reachable by some route, and its nearest evidence is not all text led by a test |
| WiringRegistry.W004Is | harness/wiring_audit.py:996-1048 | W004 is reported for a name exactly when it is a listed prefix matching nothing tracked, a declared path that is no node, or an eligible entry point with a status other than the three |
| WiringRegistry.W005Is | harness/wiring_audit.py:1059-1065 | W005 is reported for a path exactly when it is an eligible entry point declared unwired for a whole rotation, reachable or not |
| WiringRegistry.W006Is | harness/wiring_audit.py:1049-1058 | W006 is reported for a path exactly when it is declared wired, reachable, not a root, and its nearest evidence is all text led by a test |
| WiringRegistry.WeakIs | harness/wiring_audit.py:934-943 | for every path, the best evidence is a test's text exactly when all the evidence nearest the roots is text and the first source by name is a test |
| WiringRegistry.NearestIsOneLevelUp | harness/wiring_audit.py:865-943 | a reached file that is no root has evidence, and the nearest lies one step nearer the roots |
| WiringRegistry.WhenOnlyTestText | harness/wiring_audit.py:1024-1058 | of the reachable files declared wired, W006 is reported for exactly those whose evidence is all text in tests, if and only if it is not the case that a test's text leads and stronger evidence lies behind it |
| WiringRegistry.NearTextHidesImport | harness/wiring_audit.py:1024-1058 | a concrete tree where a reached module imports a file and a nearer test's text still brings W006, or keeps W003 silent |
| WiringRegistry.UndeclaredIsW001 | harness/wiring_audit.py:986-1166 | the whole-tree `undeclared` set and the W001 set agree on a path exactly unless the path is an eligible entry point declared as null |
| WiringRegistry.UndeclaredWithoutRegistry | harness/wiring_audit.py:986-1166 | with no registry file the audit reports no W001 while `undeclared` lists every entry point |
| WiringRegistry.UndeclaredAmong | harness/wiring_audit.py:1146-1166 | restricted to some paths, the scan lists those of them it lists anyway |
| WiringRegistry.ProposedIsUndeclaredAndReached | harness/wiring_audit.py:1173-1215 | an entry is derived exactly for the undeclared and reachable paths, and it always says wired |
| WiringRegistry.ProposalSays | harness/wiring_audit.py:1173-1215 | each refusal exactly when it is the first that applies; and the status, pin, kind and note of a derived entry, from the best evidence and the reason given |
| WiringRegistry.Declare | harness/wiring_audit.py:1246-1269 | what `declare` adds, refuses and writes, and that it writes only when asked and only when something was added |
| WiringRegistry.DeclareSays | harness/wiring_audit.py:1246-1269 | of the paths asked for, exactly those an entry is derived for are added, each with it, and the others refused |
| WiringRegistry.WiredAndReachedIsClean | harness/wiring_audit.py:1017-1068 | an entry declared wired for a reached file draws no error |
| WiringRegistry.DeclaredAuditsClean | harness/wiring_audit.py:986-1068 | after the write, re-auditing reports no W001 to W004 on any path that was declared |
| WiringRegistry.DeclaringLeavesOthers | harness/wiring_audit.py:1246-1269 | the write changes no finding about any other path |
| ViaPin.ClassifyEntry | harness/viapin.py:116-158 | the step-by-step row equals the specified verdict, with the best evidence as its suggestion |
| ViaPin.PinReadsBack | harness/viapin.py:116-158 | a pin written with an edge's line is read back as held; one written without a line reads as unpinned |
| ViaPin.LinePinMeans | harness/viapin.py:116-158 | a pin that names a line is held iff the named file's edge is on that line, drifted iff it is on another, lost iff there is none, absent iff the file is no node |
| ViaPin.NumberPinMeans | harness/viapin.py:116-158 | a pin to line n of a file with an edge is held iff the edge is on line n, and otherwise drifted |
| ViaPin.OpenPinMeans | harness/viapin.py:116-158 | a pin that names no line is unpinned iff the file has an edge, lost iff it has none, absent iff it is no node |
| ViaPin.NoPinMeans | harness/viapin.py:116-158 | there is no pin iff the field is missing or empty, and it is the root's iff it says so |
| ViaPin.SuggestionMeans | harness/viapin.py:116-158 | a repairable pin is offered its own file at the edge's line, a lost one the best evidence of another file, any other nothing |
| ViaPin.RepinnedIsHeld | harness/viapin.py:208-230 | repairing a drifted or unpinned pin makes it held and keeps the file it names |
| ViaPin.ProposedPinHolds | harness/viapin.py:116-158 | the pin `propose` writes classifies as the root pin, or as held, or as unpinned exactly when the evidence carries no line |
| ViaPin.FixedViaSettles | harness/viapin.py:208-230 | a pin is repaired to held or left as it was, never changes file, and is not repaired twice |
| ViaPin.AuditPins | harness/viapin.py:161-181 | the rows of the audit are the classifications of the sorted entries |
| ViaPin.Fix | harness/viapin.py:208-230 | the loop over the rows rewrites exactly the pins its specification rewrites, and writes only when asked |
| ViaPin.FixConverges | harness/viapin.py:208-230 | after a written fix every pin set out for repair is held, every other verdict stands, entries keep all but their pins, no pin changes file, and a second fix changes nothing |
| ViaPin.FixedPinsAreRight | harness/viapin.py:208-230 | after a written fix every pin that named a line of a file with an edge names the edge's line, and with `fill` so does every pin that named none |
| ViaPin.ChangesAreAlterations | harness/viapin.py:208-230 | a change is listed for exactly the keys whose pin the repair alters, with the pin it had and the one it gets |
| WhenceSlow.StreamDecodes | harness/whenceslow.py:210-219 | the byte stream under the subject digest determines the file list and every content, as long as no two different contents of the two trees share a digest and no name holds a NUL |
| WhenceSlow.SubjectDigestIsView | harness/whenceslow.py:188-219 | two trees whose digests tell them apart have one subject digest exactly when their subject files and contents are equal |
| WhenceSlow.DepClosure | harness/whenceslow.py:366-395 | the stack walk returns the sorted paths of the import closure and the always-loaded files |
| WhenceSlow.ClosureIsLeast | harness/whenceslow.py:366-395 | the closure lies inside every set that holds the module and is closed under imports |
| WhenceSlow.ClosureIsReachability | harness/whenceslow.py:366-395 | a module is in the closure exactly when a chain of imports reaches it |
| WhenceSlow.DepDigestsAreView | harness/whenceslow.py:398-400 | two trees without colliding contents give one map of dependency digests exactly when closure and contents are equal |
| WhenceSlow.MovedDepsEmpty | harness/whenceslow.py:403-413 | no moved dependency is listed exactly when the two digest maps are equal |
| WhenceSlow.LatestByUnit | harness/whenceslow.py:443-473 | one entry per requested unit, the latest one or none |
| WhenceSlow.LatestIsLatest | harness/whenceslow.py:443-473 | the entry kept has the largest finishing time of its unit, and is the last written among equals; none only if the unit has no entry |
| WhenceSlow.RunUnit | harness/whenceslow.py:715-746 | one unit's protocol, with both digests taken before and after the run, gives the specified entry |
| WhenceSlow.Ledger.RunSlice | harness/whenceslow.py:703-750 | a slice appends one entry per unit, in order, and changes no earlier line |
| WhenceSlow.Status | harness/whenceslow.py:508-561 | one row per unit and, beside them, the number of conclusive rows, equal to the specified ones |
| WhenceSlow.StatusSays | harness/whenceslow.py:520-545 | over a ledger `run_slice` wrote, row i is about unit i; it is a fresh pass (or failure) iff that unit's last run returned 0 (or 1) and its evidence stands, unknown if it never ran, and never conclusive with a registry error |
| WhenceSlow.ConclusiveIsCounted | harness/whenceslow.py:537-545 | the count is the size of the set of conclusive rows |
| WhenceSlow.StaleMeansMoved | harness/whenceslow.py:476-495 | each other state from its cause: raced iff the tree moved during the run, incomplete iff the run ended without verdict, stale subject or stale closure iff that has moved since |
| WhenceSlow.AlwaysInDeps | harness/whenceslow.py:366-396 | every closure holds the unit's own module and the three files pytest loads for any |
| WhenceSlow.ClassifyEntry | harness/whenceslow.py:476-495 | an entry written by a run is a fresh pass (or fail) exactly when the run returned 0 (or 1) and the subject and closure agree before, after and now, when nothing stamped collides |
| WhenceSlow.EvidenceStaysFresh | harness/whenceslow.py:476-495 | whatever the digests: a completed run whose subject and closure have not moved is never called stale |
| WhenceSlow.LatestRun | harness/whenceslow.py:443-473 | over a ledger of runs, the latest entry of a unit is the stamp of its unique last run |
| WhenceSlow.FreshMeansCurrent | harness/whenceslow.py:443-561 | evidence-cache soundness and completeness over any ledger `run_slice` wrote: a unit is a fresh pass exactly when its last run returned 0 and neither subject nor closure differed before it, after it or now; likewise for a fresh failure. Asked of the digests: no collision between the trees the last run stamped and the tree now |
| WhenceSlow.DigestsExist | harness/whenceslow.py:177-219 | for any list of trees with no more contents, and no more trees, than there are codes (50000 to the power of 16), there are 16-character digests that tell all of them apart, so that assumption can be met |
| WhenceSlow.ClosureStands | harness/whenceslow.py:366-395 | if no module of a closure changed, the closure computed in the new tree is the same |
| WhenceSlow.SparedPaths | harness/whenceslow.py:756-776 | a change set that spares a unit touches no subject file and no path of its closure but `pytest.ini` |
| WhenceReplay.IgnoredAtAnyDepth | harness/whenceslow.py:168-170 | a file in an ignored directory, at any depth, is no source |
| WhenceReplay.UnderTestsSays | harness/whenceslow.py:756-776 | under the tests is what lies in the tests directory |
| WhenceSlow.SparedUnitsKeepEvidence | harness/whenceslow.py:756-776 | a unit spared by a commit keeps its evidence exactly when the commit left `pytest.ini` as it was |
| WhenceSlow.PytestIniIsMissed | harness/whenceslow.py:756-776 | a commit to `pytest.ini` alone invalidates no unit, although every closure holds that file |
| WhencePlan.Plan | harness/whenceslow.py:625-655 | the loop returns the specified picks, in order |
| WhencePlan.OrderedHead | harness/whenceslow.py:640-649 | the pass sees the same rows, and starts with one that no other comes before |
| WhencePlan.OrderSays | harness/whenceslow.py:640-649 | no inconclusive unit after a conclusive one; of the inconclusive none last recorded red after one that was not; then the longest unrun, then the cheapest first |
| WhencePlan.EstimateSays | harness/whenceslow.py:643-650 | a unit counts with its last seconds, and with the default when it has none or 0.0; only the order adds the file's size |
| WhencePlan.PlanFits | harness/whenceslow.py:648-655 | the picked estimates stay inside the budget, or exactly one unit is picked; some unit always is |
| WhencePlan.PlanIsMaximal | harness/whenceslow.py:648-655 | no row left out would still fit beside the picked ones |
| WhencePlan.WhenDearIsPicked | harness/whenceslow.py:625-655 | a unit that alone exceeds the budget is picked if and only if it comes first, and then alone |
| WhencePlan.WhenDearIsLastResort | harness/whenceslow.py:628-632 | such a unit is returned only when nothing else fits, as documented, if and only if the first in order fits or nothing fits |
| WhencePlan.DearComesFirst | harness/whenceslow.py:628-632 | a concrete status where it is returned although another unit fits |
| WhencePlan.NoUnitStarves | harness/whenceslow.py:625-655 | over any run of slices with any budgets, a unit that stays in the front class is picked within as many slices as there were units last run no later than it, and one more |
| WhenceReplay.RunRound | harness/whenceslow.py:796-813 | the loop of one round gives the slate of the specified pass |
| WhenceReplay.RoundIsSlice | harness/whenceslow.py:799-812 | what a round covers and spends is a set defined without a loop: units whose cheaper predecessors fit with them |
| WhenceReplay.SpendBound | harness/whenceslow.py:799-812 | a round stays in its budget, or bought one billable unit after free ones and nothing else that costs |
| WhenceReplay.WhenSpendIsBounded | harness/whenceslow.py:799-812 | the spend is at most the larger of the budget and the cheapest uncovered cost if and only if it is not the case that a free unit waits, some billable unit waits and every billable one exceeds a positive budget |
| WhenceReplay.SpendBoundBillable | harness/whenceslow.py:799-812 | when every uncovered unit costs something, the spend is at most the larger of the budget and the cheapest uncovered cost |
| WhenceReplay.FreeUnitBreaksTheBudget | harness/whenceslow.py:799-812 | with a unit of cost 0.0 that bound fails: a concrete round overspends |
| WhenceReplay.ZeroSecondsOverspend | harness/whenceslow.py:799-812 | with measured seconds: a unit recorded at 0.0 lets in one that took longer than the budget |
| WhenceReplay.UnmeasuredCostDefault | harness/whenceslow.py:799-812 | a unit never run is priced at the default |
| WhenceReplay.GreedyIsOptimal | harness/whenceslow.py:799-812 | no set of uncovered units within the budget has more members than the round's slice, if and only if the budget is not 0.0 or fewer than two free units wait |
| WhenceReplay.RoundMonotone | harness/whenceslow.py:796-813 | from a larger covered set and with a larger budget a round ends with a larger covered set |
| WhenceReplay.BudgetMonotone | harness/whenceslow.py:780-816 | under any sequence of invalidations the covered sets stay nested in the budget after every round |
| WhenceReplay.Replay | harness/whenceslow.py:780-816 | the replay loop returns the recall and the seconds of every round of the specified run |
| WhenceReplay.SeriesAt | harness/whenceslow.py:780-816 | entry i of the series is the recall after the first i + 1 rounds |
| WhenceReplay.RecallIsShare | harness/whenceslow.py:813-816 | recall times the number of units is the number covered |
| WhenceReplay.SeriesMonotone | harness/whenceslow.py:780-816 | a larger budget gives pointwise at least the recall, and each entry lies between 0 and 1 |
| WhenceReplay.CommitInvalidations | harness/whenceslow.py:756-776 | one set of invalidated units per commit, in order |
| WhenceReplay.InvalidatedUnion | harness/whenceslow.py:756-776 | two change sets together invalidate what they invalidate one by one |
| WhenceReplay.InvalidatedIs | harness/whenceslow.py:756-776 | a unit is invalidated iff a changed source file lies outside the tests or in the unit's own closure |
| WhenceReplay.GroupByRound | harness/whenceslow.py:831-852 | the loop gives the specified groups and their tags |
| WhenceReplay.GroupingKeepsFiles | harness/whenceslow.py:831-852 | grouping commits by round loses, invents and reorders no file |
| WhenceReplay.GroupsAreStretches | harness/whenceslow.py:831-852 | each group is a stretch of neighbouring commits, tagged by its first, in which no commit names another round |
| WhenceReplay.NeighboursDiffer | harness/whenceslow.py:831-852 | every group but the first names its round, and a round other than its neighbour's |
| WhenceReplay.GroupingNeverRaisesCoverage | harness/whenceslow.py:831-852 | pricing one slice per round covers at most what one slice per commit covers, whatever the commits |
| RedAttribFisher.Vandermonde | harness/redattrib.py:981-1000 | Vandermonde's identity for the counting terms of the test |
| RedAttribFisher.TermsSumToOne | harness/redattrib.py:981-1000 | the hypergeometric terms from `lo` to `hi` sum to exactly 1 |
| RedAttribFisher.FisherRange | harness/redattrib.py:981-1000 | the value is the tail sum itself, since 0 < prob(a) <= tail <= 1: the `min` never acts |
| RedAttribFisher.LikelierTablesAreLeftOut | harness/redattrib.py:981-1000 | p and the probabilities of the tables likelier than the observed one (beyond the tolerance) make one |
| RedAttribFisher.UnlikelyTablesAreIn | harness/redattrib.py:981-1000 | p holds the observed table and every other table no likelier than the tolerance |
| RedAttribFisher.WhenPIsOne | harness/redattrib.py:981-1000 | p is 1 if and only if no table with these margins is likelier than the observed one, beyond the tolerance |
| RedAttribFisher.LessLikelyIsNoLarger | harness/redattrib.py:981-1000 | of two tables with the same margins the less likely has no larger p |
| RedAttribFisher.SmallTable | harness/redattrib.py:981-1000 | [[2, 0], [0, 2]] has p 1/3 and [[1, 1], [1, 1]] has p 1 |
| RedAttribFisher.RowSwap | harness/redattrib.py:981-1000 | swapping the rows does not change p |
| RedAttribFisher.ColumnSwap | harness/redattrib.py:981-1000 | swapping the columns does not change p |
| RedAttribFisher.Transpose | harness/redattrib.py:981-1000 | transposing the table does not change p |
| RedAttrib.EpisodesFor | harness/redattrib.py:433-448 | the loop over rounds gives the specified episodes |
| RedAttrib.EpisodesAreMaximalRuns | harness/redattrib.py:433-448 | the episodes are the maximal runs of red rounds, in order, apart, covering every red round, and only the last can be open |
| RedAttrib.CurrentIsTrailing | harness/redattrib.py:433-448 | the episode left open is the run of red rounds at the end |
| RedAttrib.WindowClosesNoMore | harness/reddebt.py:250-258 | a window of the most recent rounds never counts more closed episodes than the whole history |
| RedDebt.CheckState | harness/reddebt.py:174-200 | one state per check, in order, equal to its specification |
| RedDebt.StateSays | harness/reddebt.py:174-200 | a check's state holds the number of its logs, its latest log, its latest verdict, and exactly the nodes that verdict lists, in order |
| RedDebt.StateWithoutVerdict | harness/reddebt.py:174-200 | a check that never had a verdict has none, and no red nodes |
| RedDebt.RowsSay | harness/reddebt.py:147-171 | a round has no verdict iff its run was killed, otherwise green iff its log lists no node, and red with the nodes it lists |
| RedDebt.CheckRounds | harness/reddebt.py:147-171 | the two loops build the rows: no verdict for a round that could not run, otherwise red exactly when the log lists a node |
| RedDebt.KilledRunsOnlyAge | harness/reddebt.py:147-200 | whatever the logs of killed runs list, the report is the one without those logs, in every field but the stale count |
| RedDebt.EpisodeBack | harness/reddebt.py:203-218 | the backward walk returns the length of the red run at the end and the round it opened in |
| RedDebt.WalkAgreesWithEpisodes | harness/reddebt.py:203-218 | the walk finds a run exactly when the last episode of `episodes_for` is open, and then that episode's opening round and length |
| RedDebt.Debt | harness/reddebt.py:221-282 | the nested loops and the sort return the specified report |
| RedDebt.RecordIsOpenEpisode | harness/reddebt.py:247-281 | each record's opening round and age are those of the open episode, all earlier ones have closed, and the window count is at most the full count |
| RedDebt.DebtIsWhatIsRedNow | harness/reddebt.py:221-282 | the report holds exactly the records of the nodes red in their check's latest verdict round |
| RedDebt.DebtLists | harness/reddebt.py:221-282 | a record of check c and node n is in the report iff the latest round of c with a verdict is red and lists n |
| RedDebt.DebtListsOnce | harness/reddebt.py:221-282 | and there is one record of each |
| RedDebt.RecordSays | harness/reddebt.py:221-282 | a record says since which round the node is red in every verdict, in how many verdicts, who ran when it opened, who owns it, whether that hides it, and whether it is recurrent or overdue |
| RedDebt.WindowSays | harness/reddebt.py:221-282 | prior episodes are the closed ones among the last verdicts of the window |
| RedDebt.OldestFirst | harness/reddebt.py:221-282 | of two records the first is no younger; ties go by check, then node |
| RedDebt.DebtIsArranged | harness/reddebt.py:282 | the report is ordered by age, then check, then node |
| RedDebt.VerdictRoundsUnchanged | harness/reddebt.py:174-200 | rounds with no verdict, added anywhere, do not change the list of verdict rounds |
| RedDebt.DebtIgnoresNoVerdict | harness/reddebt.py:221-282 | adding no-verdict rounds anywhere changes no record, no field and no position but `stale_rounds` |
| RedDebt.StaleRoundsHaveNoVerdict | harness/reddebt.py:174-200 | `stale_rounds` is the number of logs after the last verdict, and none of them has one |
| CaptureManifest.FindMtimeMatches | nuc/capture_manifest.py:721-732 | a file matches exactly when its age is at least days + 1 whole days |
| CaptureManifest.NextSweepAtOrAfter | nuc/capture_manifest.py:734-763 | the bounded walk returns the specified fire |
| CaptureManifest.NextFireIsFirst | nuc/capture_manifest.py:734-763 | no fire at or after the stamp that runs is earlier |
| CaptureManifest.Unskipped | nuc/capture_manifest.py:755-763 | the walk passes over skipped fires only, and takes at most as many steps as there are of them |
| CaptureManifest.Pigeonhole | nuc/capture_manifest.py:755-763 | more consecutive fires than there are skipped instants cannot all be skipped, so the loop bound is never reached |
| CaptureManifest.RetentionForecast | nuc/capture_manifest.py:766-860 | the run, the fires passed over, the three lists and the two dates; `doomed` holds exactly a row (name, time, whole days) for each swept-for file whose deletion is `run`, and every file is in exactly one list |
| CaptureManifest.DoomedAre | nuc/capture_manifest.py:766-860 | the list of what the next sweep deletes holds exactly the rows of the files it does delete |
| CaptureManifest.SparedHave | nuc/capture_manifest.py:766-860 | the list of what it spares has a row for exactly the files deleted later, with their own name, time, age, compression and sweepable instant |
| CaptureManifest.EveryFileIsListed | nuc/capture_manifest.py:766-860 | every file lands in exactly one of the three lists, as often as it is listed |
| CaptureManifest.EarliestSay | nuc/capture_manifest.py:842-860 | the two dates are the earliest of the spared rows', and missing only when nothing is spared |
| CaptureManifest.SimulationAgrees | nuc/capture_manifest.py:721-832 | simulating the sweep fire by fire deletes the file at the closed-form fire and not before, and it stays deleted |
| CaptureManifest.DoomedMeansDeletedAtRun | nuc/capture_manifest.py:798-812 | a file is listed as doomed exactly when the simulated sweep deletes it at `run`; nothing goes earlier |
| CaptureManifest.ForecastIsEarliestLoss | nuc/capture_manifest.py:813-832 | `deleted_at_utc` is never after the real deletion, and equals it exactly when a fire is scheduled then and not skipped |
| CaptureManifest.DailyForecastIsExact | nuc/capture_manifest.py:829-831 | with a daily timer, the named instant is the real one if and only if the first fire at or after the sweepable instant is not a skipped one |
| CaptureManifest.SkippedLaterFireIsNamed | nuc/capture_manifest.py:829-831 | a concrete forecast that names a fire after `run` which is known to be skipped |
| CaptureManifest.NothingIsLostEarlier | nuc/capture_manifest.py:832-860 | no file the sweep looks at goes before `run`; one that goes later goes no earlier than `earliest_loss_utc` |
| CaptureManifest.ScheduledFires | nuc/capture_manifest.py:966-981 | exactly the lattice points between the bounds, ascending |
| CaptureManifest.FiresLostToOutage | nuc/capture_manifest.py:1122-1135 | exactly the lattice points after the box was last seen, up to its return, in ascending order |
| CaptureManifest.OutageMovesTheRun | nuc/capture_manifest.py:766-798 | with the lost fires as skipped and the requested fire inside the outage, `run` is the first fire after the return |
| MutantRemap.OwnerOf | nuc/survivor_impact.py:273-280 | the scan for the enclosing def gives the specified one |
| MutantRemap.InnermostIsShortest | nuc/survivor_impact.py:273-280 | the owner contains the line and is no longer than any def that does |
| MutantRemap.Keyed | nuc/mutant_remap.py:73-82 | the two tables the loop fills are the specified ones |
| MutantRemap.ByKeyIsBucket | nuc/mutant_remap.py:73-82 | the table holds under each key exactly the mutants with it, in generation order |
| MutantRemap.Ordinals | nuc/mutant_remap.py:98-101 | every mutant is given its own key and its own place in that key's bucket |
| MutantRemap.Remap | nuc/mutant_remap.py:85-143 | the report's rows, counts and new ids for any list of requested ids |
| MutantRemap.RemapIsCorrespondence | nuc/mutant_remap.py:104-126 | an id gets a new id exactly when the two mutants have one key, buckets of one size, and one place in them |
| MutantRemap.RemapIsInjective | nuc/mutant_remap.py:104-126 | different old ids never share a new id |
| MutantRemap.RemapInverts | nuc/mutant_remap.py:85-143 | remapping with the revisions swapped undoes it, with the same status |
| MutantRemap.RemapComposes | nuc/mutant_remap.py:85-143 | carrying an id over two edits one by one agrees with carrying it over both at once |
| MutantRemap.RemapToItself | nuc/mutant_remap.py:85-143 | an unedited source keeps every id, as matched |
| MutantRemap.WhenRefused | nuc/mutant_remap.py:117-122 | an id is gone exactly when no new mutant has its key, and ambiguous exactly when the number that do has changed |
| MutantRemap.GoneMeansNoSameMutation | nuc/mutant_remap.py:61-122 | an id is gone iff no new mutant has the same operator, description, stripped line text and innermost def; and it is moved to one that has |
| MutantRemap.StatusSays | nuc/mutant_remap.py:117-122 | matched iff the id stays, moved iff it changes; the detail gives both lines, the bucket sizes and the place |
| MutantRemap.CountsAddUp | nuc/mutant_remap.py:128-143 | the counts by status add up to the number requested |
| MutantRemap.ReportSays | nuc/mutant_remap.py:128-143 | each count is the number of rows with that status, and the new ids are those of the rows |
| MutantRemap.StripSays | nuc/mutant_remap.py:61-71 | a stripped text is the text less its white space at both ends |
| DoseResponseRanks.Ranks | nuc/dose_response.py:462-474 | the in-place loops write every value's mid-rank |
| DoseResponseRanks.GroupRank | nuc/dose_response.py:466-473 | the mean of a tie group's places is its number of smaller values plus half its ties and a half |
| DoseResponseRanks.RanksPreserveOrder | nuc/dose_response.py:462-474 | ranks are equal for equal values and larger for larger ones |
| DoseResponseRanks.RanksIgnoreScale | nuc/dose_response.py:462-474 | ranks depend on the order of the values only |
| DoseResponseRanks.RanksSum | nuc/dose_response.py:462-474 | the ranks sum to n(n + 1)/2, ties or not |
| DoseResponseSpearman.Spearman | nuc/dose_response.py:477-492 | the result, errors included, of Pearson's formula on the written ranks |
| DoseResponseSpearman.CauchySchwarz | nuc/dose_response.py:487-492 | sxy squared is at most sxx times syy, for any values about any centres |
| DoseResponseSpearman.CauchySchwarzEquality | nuc/dose_response.py:487-492 | when it is an equality, one side lies on a line through the other |
| DoseResponseSpearman.SpearmanIsBounded | nuc/dose_response.py:477-492 | the coefficient lies between -1 and 1, and its denominator is positive |
| DoseResponseSpearman.ZeroMeansConstant | nuc/dose_response.py:477-492 | the constant 0.0 is returned exactly when one side does not vary |
| DoseResponseSpearman.SameOrderIsOne | nuc/dose_response.py:477-492 | two sides ordered alike give exactly 1 |
| DoseResponseSpearman.OppositeOrderIsMinusOne | nuc/dose_response.py:477-492 | two sides ordered oppositely give exactly -1 |
| DoseResponseSpearman.WhenOne | nuc/dose_response.py:477-492 | the coefficient is exactly 1 if and only if the two sides order every pair alike |
| DoseResponseSpearman.WhenMinusOne | nuc/dose_response.py:477-492 | the coefficient is exactly -1 if and only if they order every pair the other way round |
| DoseResponseScopes.SplitByProvenance | nuc/dose_response.py:848-899 | the three lists and the covered time, and when it fails |
| DoseResponseScopes.ProvenanceSays | nuc/dose_response.py:848-899 | a login is before the corpus iff its day is, ours iff some round with a transcript made a call within reach, and otherwise theirs |
| DoseResponseScopes.ProvenanceConserves | nuc/dose_response.py:848-899 | no login is dropped or listed twice |
| DoseResponseScopes.FirstDaySays | nuc/dose_response.py:848-899 | the corpus begins on the first day any round made contact |
| DoseResponseScopes.SplitByRound | nuc/dose_response.py:902-956 | the blocks by round and the counts, and when it fails |
| DoseResponseScopes.Nearest | nuc/dose_response.py:871 | the linear minimum is a call, and none is nearer |
| DoseResponseScopes.Attribute | nuc/dose_response.py:937-946 | the loop over the two neighbours gives the specified round |
| DoseResponseScopes.AttributionIsNearest | nuc/dose_response.py:937-946 | the round attributed is that of a nearest call, and one is attributed exactly when some call is within reach |
| DoseResponseScopes.BlocksAre | nuc/dose_response.py:929-946 | each block holds exactly the scopes attributed to its key, in order |
| DoseResponseScopes.SplitsAgree | nuc/dose_response.py:848-956 | the two searches classify alike: the unattributed block is the provenance split's `theirs`, and the attributed ones count its `ours` |
| DoseResponseScopes.CoveredTime | nuc/dose_response.py:876-883 | the one-pass accumulator is the size of the union of all windows |
| DoseResponseScopes.InCovered | nuc/dose_response.py:876-883 | an instant is in that union exactly when some call's window holds it |
| DoseResponseScopes.CoveredOutsideTheSpan | nuc/dose_response.py:874-893 | the accumulator exceeds what the windows cover between first and last call by exactly twice the reach |
| DoseResponseScopes.WhenTotalIsInSpan | nuc/dose_response.py:874-893 | the accumulator is what the windows cover between first and last call if and only if the windows are empty |
| DoseResponseScopes.CoveredByGaps | nuc/dose_response.py:874-893 | the accumulator in closed form: the span plus twice the reach, less what each gap between neighbouring calls leaves unreached |
| DoseResponseScopes.WhenTotalFitsTheSpan | nuc/dose_response.py:874-893 | the accumulator is at most the span it is divided by if and only if the gaps leave at least twice the reach unreached |
| DoseResponseScopes.CoveredMoreThanTheSpan | nuc/dose_response.py:874-893 | two calls a second apart: the covered time is 241 times the span it is reported as a fraction of |
| BenchDelegation.PriceSequence | harness/bench_delegation.py:51-64 | the loop prices the tokens read, written and output by the requests both lists have |
| BenchDelegation.ReadOrWritten | harness/bench_delegation.py:58-63 | every input token is priced once, as read or as written |
| BenchDelegation.GrowingSequence | harness/bench_delegation.py:51-64 | when each request extends the one before, the reads are the warm prefix and all requests but the last, the writes what the last adds to the warm prefix |
| BenchDelegation.ShrinkingSequence | harness/bench_delegation.py:51-64 | when each request is a part of the one before, all of it is read and nothing written |
| BenchDelegation.DeltaInTokens | harness/bench_delegation.py:84-106 | the saving in tokens, from the two priced arms, for any scenario with a step |
| BenchDelegation.DeltaIsAffine | harness/bench_delegation.py:104-121 | the saving is a straight line in the remaining steps |
| BenchDelegation.SlopeSign | harness/bench_delegation.py:113-121 | its slope has the sign of S*d - a - rho |
| BenchDelegation.WhenBreakEvenHolds | harness/bench_delegation.py:109-121 | `n` steps pay exactly from `break_even_R` on, for all n, if and only if the saving starts negative or does not fall |
| BenchDelegation.BreakEvenIsThreshold | harness/bench_delegation.py:109-121 | one number of steps at a time, under that condition |
| BenchDelegation.FallingSavingStopsPaying | harness/bench_delegation.py:117-118 | when it starts at or above zero and falls, 0.0 is returned although some number of steps does not pay |
| BenchDelegation.ClosedFormAgrees | harness/bench_delegation.py:124-139 | `closed_form_R` equals `break_even_R`, for every scenario, if and only if: with nothing gained by carrying, delegation does not pay at once; with a gain and a loss at first, r*(O + S*d - P) = w*(a + rho); with a gain and no loss at first, the closed numerator is not positive |
| BenchDelegation.ShortObservationsCanPay | harness/bench_delegation.py:109-121 | a scenario with V <= rho + a whose break-even is finite, against the docstring |
| BenchDelegation.WhenNever | harness/bench_delegation.py:109-121 | "never" is returned if and only if the saving starts negative and S*d <= a + rho |
| BenchDelegation.NeverMeansNever | harness/bench_delegation.py:109-121 | "never" is returned if and only if no number of remaining steps pays |
| BenchDelegation.ClosedFormDiffers | harness/bench_delegation.py:124-139 | a concrete scenario where `closed_form_R` is not `break_even_R` |
| BenchDelegation.PaysAtFirstOnly | harness/bench_delegation.py:117-118 | a concrete scenario whose break-even is 0.0 and which no longer pays after 38 steps |
| FossilLedger.Build | nuc/fossil_ledger.py:146-183 | the vote tables and the loop over instants give one day per scored fire, as specified |
| FossilLedger.TallyIs | nuc/fossil_ledger.py:155-162 | the nested table holds for each fire exactly the claims made about it, and for each claim its captures in order |
| FossilLedger.JoinIsSemilattice | nuc/fossil_ledger.py:164-183 | joining verdicts is idempotent, commutative and associative |
| FossilLedger.UnionIsJoin | nuc/fossil_ledger.py:146-183 | the verdict of two sets of captures is the join of their verdicts, fire by fire |
| FossilLedger.AddingCapturesOnlyDisagrees | nuc/fossil_ledger.py:146-183 | adding captures loses no fire, and changes a verdict only to DISAGREE |
| FossilLedger.DaysAre | nuc/fossil_ledger.py:164-183 | each day carries the joined verdict of a fire somebody scored, in order of the fires |
| FossilLedger.VerdictSays | nuc/fossil_ledger.py:164-183 | a fire ran (or was missed) iff only rows that say so score it, and is a disagreement iff rows say both |
| FossilLedger.DaySays | nuc/fossil_ledger.py:164-183 | the captures and the evidence of a day are those of the rows that score it, each once and in order |
| FossilLedger.ClaimsSay | nuc/fossil_ledger.py:164-183 | on a disagreement, each claim with exactly the captures that make it |
| FossilLedger.LedgerFile.Append | nuc/fossil_ledger.py:229-271 | the ledger is extended, never rewritten; what is added, flagged and left out |
| FossilLedger.AppendIsIdempotent | nuc/fossil_ledger.py:229-271 | appending the same report again adds nothing |
| FossilLedger.AdditionsSay | nuc/fossil_ledger.py:229-271 | appended are exactly records of the days whose verdict is not the ledger's latest, each with the verdict it contradicts |
| FossilLedger.AppendedVerdicts | nuc/fossil_ledger.py:229-271 | the latest verdict of every reported fire is the report's, and of every other fire what it was |
| FossilLedger.Verify | nuc/fossil_ledger.py:274-304 | the counts, and exactly the keys with more than one verdict, with their verdicts |
| FossilLedger.AuditSays | nuc/fossil_ledger.py:274-304 | a key is in conflict iff two of its records differ; the line counts count the lines |
| FossilLedger.ConflictsAfterAppend | nuc/fossil_ledger.py:229-304 | the conflicts `verify` finds after an append are those before it and the contradictions flagged |
| FossilLedger.FirstBuildRecords | nuc/fossil_ledger.py:146-271 | building into an empty ledger leaves every fire the captures know of in it, with the verdict they give, no other fire, and no conflict |
| FossilLedger.GrowingCaptures | nuc/fossil_ledger.py:146-271 | a ledger of right verdicts, appended to from the captures behind it and more, holds every fire all of them know of, with the joined verdict; and every contradiction it flags is a verdict that became a disagreement |
| FossilLedger.HistoryRecordsAll | nuc/fossil_ledger.py:146-271 | after any sequence of rounds, each adding captures and appending the report over all of them, the ledger holds exactly the fires known, each ending on the verdict known now |
| FossilLedger.ConflictsTellHistory | nuc/fossil_ledger.py:146-304 | after any such sequence, `verify` finds a conflict in exactly the fires that were unanimous after some round and disagree now |
| ReadSet.ScanAncestors | harness/readset.py:508-543 | the climb returns the chain of parents above the path's own parent |
| ReadSet.AncestorsAre | harness/readset.py:508-543 | on a path without empty components the climb lists exactly the directories above it, the root never |
| ReadSet.Implicated | harness/readset.py:546-584 | one row per key with a hit, in order of the keys |
| ReadSet.HitMeansCovered | harness/readset.py:546-584 | a path hits a node exactly when the node read it, or listed a directory at any depth above it, or the path is top-level and the node listed the root |
| ReadSet.TreeScanOnlyAdds | harness/readset.py:546-584 | the tree rule leaves every earlier hit, reason and order as it was |
| ReadSet.RowsAre | harness/readset.py:546-584 | a key has a row exactly when some changed path hits it |
| ReadSet.RowSays | harness/readset.py:546-584 | a row holds its key's file and all the hits of its node, and exists iff there are any |
| ReadSet.HitSays | harness/readset.py:546-584 | a hit is a read, or a listed parent, or else the nearest listed directory above, which it names |
| ReadSet.HitsInOrder | harness/readset.py:546-584 | the hits of a list of paths are those of its parts, in order |
| ReadSet.MergeMaps | harness/readset.py:781-847 | the nodes, roster, head and counters of a merged map |
| ReadSet.MergeAddsUp | harness/readset.py:781-847 | the roster is what any part lists and the counters are the parts' sums |
| ReadSet.HeadIsShared | harness/readset.py:781-847 | a merged map claims a head if and only if it has parts and every part was recorded at that head |
| ReadSet.MergedReason | harness/readset.py:546-584 | a merged node gives a path the strongest reason its parts give |
| ReadSet.MergeCommutesWithBlast | harness/readset.py:781-847 | a merged map affects a key exactly when some part does |
| ReadSet.MergedRows | harness/readset.py:781-847 | the keys a merged map implicates are the union of those its parts implicate |
| ReadSet.ByFile | harness/readset.py:587-613 | one row per file, with the keys, reasons and paths of its rows |
| ReadSet.FilesListed | harness/readset.py:587-613 | every row is counted under exactly one listed file |
| ReadSet.FileRowSays | harness/readset.py:587-613 | a file's row holds the keys of its rows as often as they occur, and exactly the reasons and paths of their hits |
| DriverHealth.SplitSessions | harness/driver_health.py:545-651 | the event loop and the final filter give the specified sessions |
| DriverHealth.SessionsAreSegments | harness/driver_health.py:592-636 | each session is the summary of its own stretch of the log, and the stretches tile the log |
| DriverHealth.SegmentsAreSessions | harness/driver_health.py:592-636 | in a stretch an init comes only first, and only further results follow a result |
| DriverHealth.SegmentsBegin | harness/driver_health.py:592-636 | no stretch is cut short: every one but the first starts with an `init`, or with content where the one before has its result |
| DriverHealth.SegmentsAreUnique | harness/driver_health.py:592-636 | and they are the only way to cut a log into stretches of one session each, none cut short |
| DriverHealth.SummaryHolds | harness/driver_health.py:622-645 | a session holds exactly its stretch's blocks and messages, and has no more turns than calls |
| DriverHealth.SummaryKeeps | harness/driver_health.py:622-645 | a session keeps the outcome and turn count of its last result and the identifier of its last `init` |
| DriverHealth.SummaryInterrupted | harness/driver_health.py:622-645 | a stretch without a result is an interrupted session without outcome |
| DriverHealth.SummaryStamps | harness/driver_health.py:622-645 | its instants are those of the main loop's messages, in order |
| DriverHealth.SplitConserves | harness/driver_health.py:545-651 | the sessions together hold every tool-use block that is not a sub-agent's and every assistant message once, and the turns lie between the distinct message ids and the blocks |
| DriverHealth.WhenTurnsAreWholeFile | harness/driver_health.py:653-685 | `turns_all` is the whole-file count of turns if and only if no two sessions share the identifier of a message with a tool use (a missing one included) |
| DriverHealth.BatchingNeverCosts | harness/driver_health.py:694-718 | `turns_saved` is never negative, and a round over its turn limit would have been over it without batching too |
| DriverHealth.WhenSerialMeansDied | harness/driver_health.py:688-717 | `serial_would_have_died` misses no session that batching saved; and it names only such rounds, for every limit, if and only if at most one session makes any calls |
| DriverHealth.DiedWithoutBatching | harness/driver_health.py:688-717 | two sessions of two unbatched calls each, limit 3: reported as dying without batching, with nothing batched |
| DriverHealth.BudgetExists | harness/driver_health.py:638-651 | a log has a budget if and only if it holds an assistant message, or a result naming its outcome that no other result directly follows |
| DriverHealth.BudgetSays | harness/driver_health.py:653-717 | the budget and the headroom from the reported sessions: the last one's turns, the sums, whether any hit the limit, what remains |
| FastLaneSink.WriteAll | nuc/fast_lane_sink.py:67-70 | however little each write takes, the whole buffer is written once and in order; on a failure a prefix of it is |
| FastLaneSink.Sink | nuc/fast_lane_sink.py:45-84 | on success the file is the stream, after the old part if it resumes and there is one; the part is gone and the drops tile what was appended; on failure the part holds a prefix; the cache never holds more than the bound |
| FastLaneSink.BoundSays | nuc/fast_lane_sink.py:45-84 | the bound is less than a sync interval and a chunk, and one chunk when every chunk is synced |
| FastLaneSink.TilesCoverOnce | nuc/fast_lane_sink.py:73-77 | ranges that tile drop every byte of the range once, and no other |
| FastLaneSink.ResumeCompletes | nuc/fast_lane_sink.py:45-84 | after any number of interrupted runs, one resumed run that ends leaves the file |
| FastLaneSink.SenderMustSkip | nuc/fast_lane_sink.py:47-51 | a resumed run leaves the file exactly when the sender sends the rest and nothing else |

## Left out

- Git, subprocess, `/proc`, ssh, network, file and clock access, argument parsing and printed reports: their results are
  parameters.
- Reading pytest, junit, stream-json, journal, `ls -l` and driver logs, and extracting references, imports, marks and
  mutants from source text: the model takes the extracted edges, imports, events, rows, nodes and mutants.
- JSON round trips of registries, ledgers and maps; the model holds their values. A ledger line that is JSON but not an
  object is not modelled.
- Time zones and `ls -l` year recovery; instants are whole seconds.
- Float rounding and `round(...)`; statistics, costs and rates are exact. `math.sqrt` in `spearman`: the result keeps
  numerator and squared denominator apart.
- WhenceSlow.FreshMeansCurrent: asks that no two different contents, and no two subject streams, of the trees compared
  around a run share a truncated digest, and that no file name holds a NUL (`DigestsExist` shows that digests can do so;
  `EvidenceStaysFresh` asks nothing). It speaks of ledgers written by `run_slice`; lines added by hand are covered only
  entry by entry, by `LatestByUnit` and `Status`.
- WhenceSlow.StatusSays: units are their own test files, as the scan makes them; digests as for `FreshMeansCurrent`.
- WhenceSlow.RunUnit: the seconds, the return code and the output tail of an entry are not modelled.
- WhenceSlow.Status: the counts, the coverage fraction and the echoed fields of a row are not modelled.
- `reconcile` and `collect_units`: which files pytest collects that the scan missed; a set difference.
- WhencePlan.NoUnitStarves: takes from the status view that a unit that was run carries a later finish time than any
  known before, and that one that was not run keeps its own.
- `rotation_shift_null`, the random permutation nulls, `node_scope_null`, `rotation_base_rate`, `first_firable`,
  `collapse_by_node`: driven by random draws, or single comprehensions.
- `sweep_history`, `persistence_verdict`: matching of observed to scheduled fires, easier than the forecast.
- `strip_heredocs` and the shell-word rules of `dose_response`: regular expressions.
- The simulated arms and grid of `bench_delegation`.
- WiringIndex.Index.ResolveReference: starts from the components of a token already stripped of quotes, blanks and
  trailing slashes; paths are sequences of components, so the walk through the joined strings is not modelled.
- WiringRegistry.Declare: a refused path is listed without its reason, which `Propose` gives. A path declared as
  `null` is refused as already declared; the source fails on it.
- WiringRegistry.Audit: findings carry their code and path, not their message, and not the counts of the report.
- ViaPin.ClassifyEntry: the entry's `status` and `via_kind` and the actual edge, echoed in a row, are not modelled.
- ViaPin.AuditPins: the counts and the error list of the report are not modelled.
- ViaPin.Fix: entries are never null (the source fails on one), and line numbers in pins are ASCII digits (`isdigit`
  accepts more).
- WhenceReplay.Replay: `mean` and `final` of the series and the rounding of the seconds are not modelled; given
  units are distinct; a repeated unit would be bought twice in the source.
- RedDebt.Debt: the owner of a node is a parameter, not the longest declared suite prefix; the window is not negative.
- CaptureManifest.RetentionForecast: `next_files_lost` and the echoed inputs are not modelled.
- CaptureManifest.NextSweepAtOrAfter: periods are at least one day.
- MutantRemap.Remap: ids within a revision are distinct, as mutation generation makes them; white space is blank, tab,
  carriage return and newline; the 160-character cut of the line text in a row, the digests and the counts
  of old and new mutants are not modelled.
- DoseResponseScopes.SplitByProvenance: the quotient `chance_match_rate` itself, and the fraction `frac_ours`, are left
  to the reader of the counts.
- DoseResponseScopes.SplitByRound: the number of rounds that got scopes is not modelled.
- FossilLedger.LedgerFile.Append: an appended record holds the fire, the verdict and the one it contradicts, not the
  captures, evidence and claims.
- FossilLedger.Build: rows say ran, missed or pending, as summary_fossil.fires makes them; the per-capture counts are
  not modelled.
- FossilLedger.Verify: the conflicting verdicts are a set, where the source sorts them (and fails on a record without a
  verdict among them); the latest-verdict counts and the span are not modelled.
- ReadSet.ScanAncestors: paths are relative, as git writes them; on an absolute one the climb would not end.
- ReadSet.MergeMaps: the list of sources and the recording time of the merged map are not modelled.
- ReadSet.ByFile: the reasons of a file are a set, not a sorted list. Silent nodes, phantom paths and staleness are not
  modelled.
- DriverHealth.SplitSessions: an unreadable log, `span_s` and `batch_ratio`.
- FastLaneSink.Sink: opening the part file, the checksum and the timings do not fail or matter.
