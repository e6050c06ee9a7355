# Chromite: transactions, install plans, shared attributes, path transfers and version races

This project models six stateful parts of Chromite and proves what they keep over whole runs.

| files | what they model |
|---|---|
| `PatchModel`, `LookupMeaning`, `PlanProofs`, `PlanTheorems` | planning one change: dependency lookup through caches, told dependency by dependency, and the depth-bounded search over a possibly cyclic dependency graph |
| `Transactions`, `AttemptMeaning`, `ApplySpec`, `ApplyTheorems`, `ApplyMeaning`, `ApplyReport`, `PatchSeries` | attempting plans one after another with rollback, when an attempt succeeds, the memory of changes known to fail, and `Apply` as a whole with all it reports; `PatchSeries` is the class whose methods compute exactly these functions |
| `DependencyTrees`, `PackageDb`, `DatabaseMeaning` | reading and resolving and/or dependency trees, and the package database with its inverted index |
| `InstallRuns`, `InstallTheorems`, `InstallMeaning`, `InstallOrder`, `InstallPaths`, `InstallScanner`, `InstallSort` | the queue of dependencies as a nondeterministic run (any element of a set may be popped), its closure theorems, what ends up installed told by the rows of the databases, when the order of pops shows and how that is read off the databases, the scanner class that performs such runs, and the depth-first ordering of what is installed |
| `RunAttributes`, `ParallelAttrs` | a register built from a queue and a lock as an interleaved state machine, and the queue class whose operations, with any steps of other processes in between, are runs of that machine |
| `FieldHandler` | extracting path messages from a message tree, moving them inside, and restoring them |
| `LkgmVersions`, `VersionMeaning`, `LkgmPublish`, `LkgmManager` | version names, what is read from them, their order, racing publishers that retry, and the manager class whose attempts are steps of the race |
| `SlaveStatus` | polling of slave builds with a count-based completion test: what any sequence of polls makes of the completed builds, and the class that keeps to it |

Where the program changes state step by step, the model does too: each such method is proved equal to a function of
the old state, or to a run of a state machine, and the theorems are about those functions and runs. What such a function
means is stated once more without it, by positions in lists, first failures, rows of databases, digits. Outside answers are
parameters that no theorem restricts: what gerrit serves, whether a cherry-pick fails and what a failed one leaves
behind, which element of a set is popped, which process moves next, whether a copy or a push fails.

## What the proofs found

The model keeps the behaviour of the code. Where a promise does not hold of it, there is an input that shows it and the
exact condition under which it does hold. Where such a condition carries an assumption, "Left out" names it.

- A requested change can vanish from the report of `Apply`. When another member of its plan is in no checkout, entering
  the transaction raises the blame of that member before the exception wrapping is in place. `Transactions.AccountedExactlyWhen`
  and `ApplyTheorems.ReportedExactlyWhen` give the exact condition, `ApplyTheorems.ReportedInGraphExactlyWhen` gives it in
  terms of the dependency graph, `ApplyTheorems.VanishingChange` is a request for which it happens; in frozen mode
  without a filter every considered change is reported (`ApplyTheorems.FrozenReportsEverything`).
- A plan may put a change before something it needs, because a change met again while its own needs are being planned is
  appended at once (`PlanTheorems.CycleMemberMayPrecedeItsNeed`). All needs in a plan come first if and only if none of its
  members lies on a dependency cycle (`PlanTheorems.PlanIsOrderedExactlyWhen`).
- With several slots of one package, the installs can depend on the order in which a Python set happens to be popped
  (`InstallOrder.OrderMattersWithTwoSlots`). Without following dependencies the order shows if and only if two listed
  dependencies of one package pick different slots (`InstallOrder.ListedOrderShowsExactlyWhen`), and such a clash shows in
  any case (`InstallOrder.ListedClashShows`). With dependencies followed, the order shows if and only if two listed
  dependencies want different slots of a package, or two paths of installs, neither of which passes through one package
  twice, end at requests for different slots of one package (`InstallPaths.OrderShowsInPaths`); that is when some run
  comes to a choice (`InstallPaths.ChoiceExactlyWhen`). No run does if all requests there can be for one package agree
  (`InstallOrder.AgreeingMakesNoChoice`), in particular if each package asked for has one slot.
- A disjunction without installed or available alternative resolves to nothing and is dropped without an error
  (`DependencyTrees.UnmetChoiceIsDropped`; the exact condition is `DependencyTrees.ChoiceIsMetExactlyWhen`).
- A reader of a parallel attribute can return an overwritten value and bring it back for good
  (`RunAttributes.OverlapLosesTheLastSet`). In any run in which no value is set twice, all readers return the latest
  value if and only if none of them finishes while another one has that value in hand
  (`RunAttributes.GetsAreLatestExactlyWhen`; the condition suffices in every run, `RunAttributes.GetsAreLatestUnlessMissed`).
- A default can overwrite a value that was set (`RunAttributes.DefaultOverwritesValueInHand`): exactly when a reader had a
  value in hand at the test, or a set fell between the test and the default (`RunAttributes.DefaultOverwritesExactlyWhen`).
- Paths among the values of a map field are not moved, because iterating over such a field yields its keys
  (`FieldHandler.MapPathIsNotMet`); exactly the complete paths outside result paths and map values are
  (`FieldHandler.MetIsVisible`, `FieldHandler.UnmetIsNotMet`).
- A copy that fails while paths are transferred in is not undone, because the transfer precedes the `try`
  (`FieldHandler.FailedCopyLeavesMovedPath`). The message is then as before exactly when all earlier paths were inside
  already, and the temporary directories made up to and including the failing copy are left behind
  (`FieldHandler.CopyPathsIn`).
- A proposed LKGM version is later than the latest spec exactly when the own version was, or the spec is spelled
  canonically and this is no dry run (`LkgmPublish.ProposalIsLaterExactlyWhen`). A spec without a revision
  is read as revision 1 but not recognized as the name to increment (`LkgmPublish.UnsuffixedSpecIsNotPassed`).
- Buildbucket successes are not restricted to expected builders, so the count-based completion test can answer yes too
  early (`SlaveStatusPolling.UnexpectedSuccessFoolsTheTest`). Once all expected builds are done it says so if and only if
  no other builder has succeeded (`SlaveStatusPolling.FinishIsNoticedExactlyWhen`).

Where code and documentation disagree the model follows the code: the docstring of `Apply` describes `honor_ordering`
the wrong way round; `_SortInstalls` documents an error for cycles that can never be raised (it starts at each package at
most once, which is proved); `_ProcessDepStr` speaks of an arbitrary available alternative and takes the first.

## Model

| member | source | states |
|---|---|---|
| PatchModel.Wrap | cbuildbot/patch_series.py:80-107 | Whatever was raised, the error leaving a decorated call blames its own parent change; an error already about the parent passes unchanged, any other is kept inside the new one together with its in-flight flag. |
| PlanProofs.LookupAllUncommitted | cbuildbot/patch_series.py:406-456 | What lookup keeps is a listed dependency that is unmerged and not committed; a refusal names a listed dependency that is refused for a reason. |
| PlanProofs.LookupAllStable | cbuildbot/patch_series.py:406-456 | The answer does not depend on how far the caches have been filled meanwhile, and looking up only fills them. |
| PlanProofs.FetchAndLookup | cbuildbot/patch_series.py:548-558 | Fetching and looking up in the middle of planning finds exactly the needs defined with the caches of the start. |
| LookupMeaning.LookupAllMeans | cbuildbot/patch_series.py:434-455 | A lookup fails if and only if gerrit has to be asked about some dependency and fails, or a dependency that has not landed is outside the limit; the first such one decides the error; otherwise exactly the dependencies that have not landed are kept, in order. |
| LookupMeaning.NeedsMeans | cbuildbot/patch_series.py:406-456 | What a change needs is the subsequence of its dependencies that are not committed, served, known to gerrit, not merged and accepted; or the error of the first dependency that makes the lookup fail, on behalf of the change, as a rejection exactly when submitting. |
| LookupMeaning.LookupRemembers | cbuildbot/patch_series.py:372-404 | A lookup remembers exactly the dependencies gerrit was asked about and served, up to the first failure, and counts the merged ones among them as committed. |
| PlanProofs.VisitProgress | cbuildbot/patch_series.py:515-572 | From any point of the search the plan invariant holds again: nothing planned twice, everything reachable from the root, every finished member explored, ordered except for changes on cycles; or the error is justified by a chain of blame. |
| PlanTheorems.PlanIsReachableSet | cbuildbot/patch_series.py:515-572 | A plan has no duplicates, holds exactly the changes reachable through needs, none of them committed, is closed under needs, and places all needs of a change on no cycle before it. |
| PlanTheorems.PlanIsOrderedExactlyWhen | cbuildbot/patch_series.py:515-572 | In a plan everything comes after all it needs if and only if no member lies on a dependency cycle. |
| PlanTheorems.ReachedUncommitted | cbuildbot/patch_series.py:434-455 | Whatever an uncommitted change reaches is uncommitted, unmerged and within the limiting set. |
| PlanTheorems.PlannedStayUncommitted | cbuildbot/patch_series.py:716-741 | Planning later changes of the same call never turns a planned change into a committed one. |
| PlanTheorems.PlanBlame | cbuildbot/patch_series.py:515-572 | A planning error blames the requested change and wraps, along a chain of needs, either exactly the lookup error of a reachable change or the recursion error of a change at the end of a walk as long as the limit. |
| PlanTheorems.DepthBound | cbuildbot/patch_series.py:542-567 | With fewer reachable changes than the limit the recursion error never occurs, cycles included, and planning fails exactly when some reachable change has a failing lookup. |
| PlanTheorems.CycleOfLimitIsRejected | cbuildbot/patch_series.py:542-546 | The bound is 500 and sharp: a cycle of 500 changes is rejected with the recursion error. |
| PlanTheorems.CycleMemberMayPrecedeItsNeed | cbuildbot/patch_series.py:555-572 | For needs u to x, u to v, x to u the plan is u, x, v, although v lies on no cycle. |
| Transactions.ApplySeqExtends | cbuildbot/patch_series.py:839-875 | A sequence that applies extends every repo by exactly its uncommitted members that touch that repo, in order. |
| Transactions.ApplySeqLocal | cbuildbot/patch_series.py:839-875 | Whatever happens, even a failing cherry-pick that leaves debris, repos recorded for no member stay as they were. |
| Transactions.KnownBadBlocks | cbuildbot/patch_series.py:853-857 | A plan with a member known to fail changes nothing at all. |
| AttemptMeaning.SucceedsExactlyWhen | cbuildbot/patch_series.py:790-875 | A transaction succeeds if and only if every member is in some checkout, none is known to fail, and each member not yet committed can be picked on top of the history with those before it. |
| AttemptMeaning.FailsAt | cbuildbot/patch_series.py:858-875 | If members are in checkouts and none is known to fail, the first pick that fails decides: its error blames the change, nothing lands, and it alone is remembered, unless it failed only in flight. |
| AttemptMeaning.RefusedForAbsent | cbuildbot/patch_series.py:796-811 | The first member in no checkout decides the error, and nothing changes. |
| AttemptMeaning.RefusedForKnownBad | cbuildbot/patch_series.py:853-857 | Else the first member known to fail decides the error with what was remembered of it, and nothing changes. |
| AttemptMeaning.RunIsInOrder | cbuildbot/patch_series.py:756-772 | Transactions are attempted one after another in the order given, each from where the one before it ended; applied are exactly the members of those that succeeded, and the errors are exactly those of the others. |
| Transactions.AttemptOutcome | cbuildbot/patch_series.py:790-837 | All or nothing: a failed transaction leaves repos and committed set as they were and blames its change or the first member in no checkout; a successful one lands in full; memory of failures only grows, by uncommitted members. |
| Transactions.RunIsAtomic | cbuildbot/patch_series.py:756-772 | Over all transactions the committed set is the earlier one plus the applied changes, and every repo is its old history plus the applied changes that touch it, in order and once each. |
| Transactions.AppliedIsClosed | cbuildbot/patch_series.py:756-772 | Everything an applied change needs is applied. |
| Transactions.AppliedIsOrdered | cbuildbot/patch_series.py:756-772 | It is applied earlier, unless the change lies on a dependency cycle. |
| Transactions.KnownBadNeverApplied | cbuildbot/patch_series.py:853-869 | A change recorded as failing is never among the applied ones, and the record survives every rollback. |
| Transactions.AccountedExactlyWhen | cbuildbot/patch_series.py:756-772 | A planned change is applied or blamed exactly when its plan is fully in checkouts or some transaction is refused for its own absence. |
| ApplySpec.Kept | cbuildbot/patch_series.py:608-664 | Fetching keeps exactly the served changes with a checkout. |
| ApplySpec.NotCheckedOut | cbuildbot/patch_series.py:634-644 | Exactly the served requested changes without a checkout are reported, as not in the manifest. |
| ApplySpec.Position | cbuildbot/patch_series.py:743-754 | A change counts at its last position in the request, as the dictionary keeps it. |
| ApplySpec.SortPlansInOrder | cbuildbot/patch_series.py:743-754 | Transactions are attempted by falling plan length, ties by position in the request, none lost and none added. |
| ApplyMeaning.TodoMeans | cbuildbot/patch_series.py:743-756 | The transactions are the plans of the considered changes that could be planned: in the order of the request if that is to be honored, else longest plan first and equally long ones by position in the request. |
| ApplyMeaning.FrozenAppliesOnlyRequested | cbuildbot/patch_series.py:717-723 | In frozen mode nothing is applied that was not considered. |
| ApplyMeaning.SubmitsFromThenOn | cbuildbot/patch_series.py:738-741 | Later refusals count as rejections exactly if the series was submitting already or some change could be planned. |
| ApplyReport.ConsideredMeans | cbuildbot/patch_series.py:711-715 | Considered are the served and checked out changes, in the order of the request, as the filter leaves them. |
| ApplyReport.PlanningErrorMeans | cbuildbot/patch_series.py:717-734 | Besides too deep a recursion, a change cannot be planned only because gerrit fails on its dependencies or on one that is not part of the request, or, in frozen mode alone, because one outside the request has not landed. |
| ApplyReport.ErrorsMean | cbuildbot/patch_series.py:756-788 | The errors returned are exactly those of absent changes, of changes that cannot be planned and of failed transactions, but for those about applied changes; in-flight ones come back separately. |
| ApplyReport.CachesAfter | cbuildbot/patch_series.py:756-772 | A call keeps what planning has learned and adds exactly the applied changes to the committed ones. |
| ApplyTheorems.ApplyIsAtomic | cbuildbot/patch_series.py:666-788 | After `Apply` each repo is its old history plus exactly the returned applied changes that touch it, in that order, each once; committed are only earlier ones, applied ones and ones gerrit calls merged. |
| ApplyTheorems.ApplyRespectsDependencies | cbuildbot/patch_series.py:666-788 | What an applied change needs is returned as applied too, and before it unless it lies on a cycle. |
| ApplyTheorems.ApplyNeverAppliesKnownBad | cbuildbot/patch_series.py:774-788 | Failures against the tip are never forgotten by a call and never contradicted by its applied list. |
| ApplyTheorems.OutcomesAreDisjoint | cbuildbot/patch_series.py:774-788 | No change is returned both as applied and as failed, and the two failure lists are split by kind. |
| ApplyTheorems.ReportedExactlyWhen | cbuildbot/patch_series.py:666-788 | A considered change is applied, committed or blamed if and only if it cannot be planned, or its whole plan is in checkouts, or it is itself blamed for absence. |
| ApplyTheorems.FrozenReportsEverything | cbuildbot/patch_series.py:717-723 | In frozen mode without a filter every considered change is reported. |
| ApplyTheorems.PlannedInGraph | cbuildbot/patch_series.py:715-736 | Below the depth limit, planning of an uncommitted change fails if and only if a lookup fails among all it needs; otherwise its plan is in checkouts if and only if all it needs is. |
| ApplyTheorems.ReportedInGraphExactlyWhen | cbuildbot/patch_series.py:666-788 | Below the depth limit, an uncommitted change that is in some checkout is applied, committed or blamed if and only if a lookup fails among all it needs, directly or not, or all of that is in some checkout. |
| ApplyTheorems.VanishingChange | cbuildbot/patch_series.py:666-788 | A world of two changes and a request of which nothing is reported: the change requested needs one that no checkout holds. |
| ApplyTheorems.CallsApplyOnce | cbuildbot/patch_series.py:666-788 | Over any sequence of calls no change is applied twice, and histories record exactly what was applied. |
| PatchSeriesClass.ResetRestores | cbuildbot/patch_series.py:809-836 | Resetting the repos recorded for the members of a plan undoes all that a failed plan did to any repo. |
| PatchSeriesClass.PatchSeries.GetGerritPatch | cbuildbot/patch_series.py:372-404 | Each of gerrit's answers with its error and exactly what is remembered of it: the change itself, as committed too if it is merged. |
| PatchSeriesClass.PatchSeries.LookupUncommittedChanges | cbuildbot/patch_series.py:406-456 | The loop over caches computes the lookup function the plan theorems are about, state included. |
| PatchSeriesClass.PatchSeries.GetDepsForChange | cbuildbot/patch_series.py:574-590 | The dependencies are cached, and a gerrit failure blames the change. |
| PatchSeriesClass.PatchSeries.AddChangeToPlanWithDeps | cbuildbot/patch_series.py:515-572 | Plan, planned set and caches updated in place end as the search function says, on success and on error. |
| PatchSeriesClass.PatchSeries.CreateTransaction | cbuildbot/patch_series.py:458-485 | Plans one change with the limit of 500; a committed change has an empty plan. |
| PatchSeriesClass.PatchSeries.CreateTransactions | cbuildbot/patch_series.py:487-513 | Every change gets a plan or an error, with caches carried from one to the next. |
| PatchSeriesClass.PatchSeries.ApplyChange | cbuildbot/patch_series.py:363-366 | Extends every repo recorded for the change, or fails and leaves debris in those repos only. |
| PatchSeriesClass.PatchSeries.ApplyChanges | cbuildbot/patch_series.py:839-875 | Known failures are checked before anything is applied, committed members are skipped, and a failure against the tip is remembered. |
| PatchSeriesClass.PatchSeries.Transaction | cbuildbot/patch_series.py:790-837 | The in-place attempt with checkpoints and reset is the all-or-nothing attempt. |
| PatchSeriesClass.PatchSeries.FetchChanges | cbuildbot/patch_series.py:625-664 | The loop over the requested changes returns exactly the kept ones and the errors of those not checked out. |
| PatchSeriesClass.PatchSeries.AttemptEach | cbuildbot/patch_series.py:756-772 | The loop over transactions is the run the whole-run theorems are about. |
| PatchSeriesClass.PatchSeries.Apply | cbuildbot/patch_series.py:666-788 | The object ends with every repo extended by exactly the returned changes, none of them also failed, and state and outcome are those of the function `Apply`. |
| DependencyTrees.ProcessSubDeps | cli/deploy.py:305-355 | The recursive loop over tokens fails if and only if a token is out of place, and otherwise yields what the expressions in the tokens ask for, taken together or as alternatives. |
| DependencyTrees.ParseGroup | cli/deploy.py:305-329 | The tokens of any list of expressions are read as exactly these expressions: an atom, an ignored atom, a group, or `||` with a group of alternatives. |
| DependencyTrees.ParseReads | cli/deploy.py:305-329 | Whatever is read without failing is the expressions whose tokens these are, up to a `||` at the end of a list, which has no effect. |
| DependencyTrees.ParseFailsExactlyWhen | cli/deploy.py:316-329 | Reading fails if and only if at some depth something other than a group follows `||`, or there is a conditional, or an ignored atom stands directly in a disjunction. |
| DependencyTrees.HoldsIsAllIn | cli/deploy.py:209-212 | Dependencies are in a database if and only if it has each package, in the slot asked for if one is. |
| DependencyTrees.ChoiceIsInstalledElseFirstAvailable | cli/deploy.py:331-355 | A disjunction yields the union of its fully installed alternatives, else its first nonempty fully available one, else nothing. |
| DependencyTrees.ChoiceIsMetExactlyWhen | cli/deploy.py:331-355 | A disjunction whose resolution satisfies it has an alternative that is installed or available as a whole and asks for something, or one that needs nothing; the converse holds too unless all alternatives taken hide an empty choice. |
| DependencyTrees.NeedOnlyAtoms | cli/deploy.py:305-355 | The result holds only atoms of the expression. |
| DependencyTrees.NeedSatisfies | cli/deploy.py:305-355 | If no disjunction resolves to nothing, the result satisfies the whole expression. |
| DependencyTrees.UnmetChoiceIsDropped | cli/deploy.py:312-355 | A disjunction without an alternative that is installed or available as a whole resolves to nothing, and the expression around it resolves as if it were not there. |
| DependencyTrees.EmptyChoiceIsUnmet | cli/deploy.py:312-355 | An instance from tokens to result: of two alternatives neither installed nor available, nothing is asked for and the expression stays unsatisfied. |
| PackageDb.RowsSlots | cli/deploy.py:389-406 | The row of a CP holds exactly the listed packages of that CP, at their slots. |
| DatabaseMeaning.RowsMean | cli/deploy.py:389-406 | The entries of a CP are its listed packages in the order of the listing, each with its slot, version, build time, USE flags and dependency string. |
| PackageDb.Layout | cli/deploy.py:389-406 | Grouping fails if and only if two packages share CP and slot, and names such a pair; else the database is exactly the list. |
| PackageDb.AddForward | cli/deploy.py:413-431 | Succeeds if and only if every dependency string resolves, and fills in exactly what they resolve to. |
| PackageDb.AddReverse | cli/deploy.py:433-455 | (cp, slot) is a reverse dependency of a package if and only if it has a dependency on that CP with no slot or the same slot; nothing else changes. |
| PackageDb.BuildDB | cli/deploy.py:364-457 | Building fails if and only if two packages share CP and slot, or a string that has to resolve does not; the result lists exactly the packages, with resolved forward dependencies and their exact inverse if asked for. |
| DatabaseMeaning.BuiltMeans | cli/deploy.py:408-431 | In a database built, each package has what its dependency string resolves to, judged against the installed packages with the database as what is available, or against the database alone if there are none given. |
| DatabaseMeaning.InvertedMeans | cli/deploy.py:433-455 | A package is a reverse dependency exactly if one of its dependencies names the CP, with no slot, the empty one, or the same one. |
| InstallRuns.ScanScanned | cli/deploy.py:797-847 | The slot loop follows the dependencies of every slot that the request, as narrowed so far, asks for and that needs installing, also of those overwritten later; the last of them is what is installed; if there is none, no install changes. |
| InstallMeaning.NeedsInstallMeans | cli/deploy.py:641-736 | A package needs installing if and only if there is nothing to compare with, or the package installed in its slot has another version or another build time, or there is none there and the request is not optional. |
| InstallMeaning.MatchMeans | cli/deploy.py:798-821 | A request matches a row if it asks for no slot or for this one; from the first row without a subslot on, only what it says before its own subslot counts. |
| InstallMeaning.WarnsMeans | cli/deploy.py:690-712 | The warning is due exactly where a row asked for replaces an outdated package with other USE flags. |
| InstallTheorems.RunKeepsInv | cli/deploy.py:763-849 | The run invariant: popped dependencies are settled, installs come from rows, flags and queue agree. |
| InstallTheorems.FlagsOnlyHarden | cli/deploy.py:544-553 | A flag only ever changes from optional to mandatory. |
| InstallTheorems.PopsAreSafeAndFew | cli/deploy.py:544-569 | Listed is within queue within seen, and each dependency is popped at most twice. |
| InstallTheorems.ListedArePoppedFirst | cli/deploy.py:555-569 | All listed dependencies are popped before any other. |
| InstallTheorems.RunsAreBounded | cli/deploy.py:783-788 | No run is longer than twice the number of dependencies there are. |
| InstallTheorems.ClosedAtExit | cli/deploy.py:763-849 | When the queue is empty, every seen dependency is installed or wanted by none of its slots under its final flag; each install was asked for by a seen dependency, is the last slot that one wants, and all slots it wants have had their dependencies followed; with several slots too. |
| InstallMeaning.InstalledExactlyWhen | cli/deploy.py:763-849 | When the queue is empty, a package is installed if and only if some dependency seen matches one of its rows and that row needs installing. |
| InstallMeaning.NamedInstalledExactlyWhen | cli/deploy.py:763-849 | A package named without a slot is installed if and only if some row of it is in a slot the target does not hold, or holds with another version or build time, or there is nothing to compare with. |
| InstallMeaning.InstallMeans | cli/deploy.py:833-842 | What is installed is the last row its request matches and needs; it is an update exactly if the target holds the slot; all such rows have brought in their dependencies as mandatory and the dependents of what they replace. |
| InstallTheorems.InstallsAreLeastFixpoint | cli/deploy.py:763-849 | In every run the installs are within each family closed under forward dependencies as mandatory and reverse ones as optional; if all requests for one package agree on its slots they are such a family themselves, so the least one. |
| InstallTheorems.SingleSlotsAgree | cli/deploy.py:763-849 | All requests agree if each package asked for has at most one slot; other packages may have any number. |
| InstallOrder.Completion | cli/deploy.py:783-849 | From any moment of a run the queue can be worked off, and what is installed stays as it is. |
| InstallOrder.ClashShows | cli/deploy.py:783-849 | If at some moment of some run two dependencies that may be popped would install different packages for one CP, two complete runs end with different installs. |
| InstallOrder.ListedClashShows | cli/deploy.py:783-849 | In particular two clashing listed dependencies, in every database and whatever is followed. |
| InstallOrder.SameChoice | cli/deploy.py:783-849 | For steady requests (mandatory they want the slots they want as optional, if any): if no run comes to a choice, any two pops that install one CP, in any two runs, want the same slots. |
| InstallOrder.OrderDoesNotMatter | cli/deploy.py:763-849 | For steady requests: if no run comes to a choice, any two complete runs end with the same installs, marks and warning; packages may have any number of slots. |
| InstallOrder.AgreeingMakesNoChoice | cli/deploy.py:763-849 | If all requests there can be for one package want the same slots, or none, they are steady and no run comes to a choice. |
| InstallOrder.OrderShowsExactlyWhen | cli/deploy.py:763-849 | For steady requests that differ in the last slot they want wherever they differ: two complete runs end with different installs if and only if some run comes to a choice. |
| InstallPaths.AllLed | cli/deploy.py:783-845 | All that a run has seen is listed, or at the end of a path of installs the run has made, no package twice. |
| InstallPaths.RunPath | cli/deploy.py:783-845 | Every such path can be run: its end is seen, and nothing is installed but what the list and the path ask for. |
| InstallPaths.ChoiceExactlyWhen | cli/deploy.py:763-849 | For steady requests: some run comes to a choice if and only if two listed dependencies, or the ends of two paths, want different slots of one package. This speaks of the databases and the list only. |
| InstallPaths.OrderShowsInPaths | cli/deploy.py:763-849 | Under the provisos of the equivalence above: two complete runs end with different installs if and only if two listed dependencies, or the ends of two paths, want different slots of one package. |
| InstallOrder.OneSlotEachDecides | cli/deploy.py:763-849 | The provisos of that equivalence hold if every request wants at most one slot. |
| InstallOrder.ListedOrderShowsExactlyWhen | cli/deploy.py:763-849 | When dependencies are not followed, two complete runs differ if and only if two listed dependencies of one CP pick different slots. |
| InstallOrder.OrderMattersWithTwoSlots | cli/deploy.py:798-833 | An instance: of two slots of a CP asked for, whichever is popped first is the only one installed. |
| InstallTheorems.RunListedRight | cli/deploy.py:833-834 | An install is marked as listed exactly when the user named it. |
| InstallOrder.RunWarnedFor | cli/deploy.py:827-834 | In every run a warning needs a seen dependency that asks, under its current flag, for an installed package with other USE flags. |
| InstallOrder.RunWarnedRight | cli/deploy.py:827-834 | If all requests for one package agree on its slots, a warning has been shown if and only if there is such a dependency. |
| InstallTheorems.StepWarnsExactlyWhen | cli/deploy.py:797-834 | With any number of slots, a pop adds the warning exactly when one of the slots it installs differs in USE flags from the package it replaces. |
| InstallScannerClass.InstallPackageScanner.InitDepQueue | cli/deploy.py:538-542 | Starts with nothing asked for. |
| InstallScannerClass.InstallPackageScanner.EnqDep | cli/deploy.py:544-553 | Enqueues if new or hardened to mandatory, says so, and changes nothing otherwise. |
| InstallScannerClass.InstallPackageScanner.DeqDep | cli/deploy.py:555-569 | Pops any listed dependency, else any queued one, with its flag; never fails on a nonempty queue. |
| InstallScannerClass.InstallPackageScanner.ProcessDeps | cli/deploy.py:738-761 | Whatever the order of enqueueing, exactly the new or hardened members of a set are added. |
| InstallScannerClass.InstallPackageScanner.ScanSlot | cli/deploy.py:824-842 | Records the install of one slot and enqueues its dependencies and dependents exactly if it is needed. |
| InstallScannerClass.InstallPackageScanner.Handle | cli/deploy.py:785-847 | One popped dependency is handled as the step of a run says, slots in order. |
| InstallScannerClass.InstallPackageScanner.ComputeInstalls | cli/deploy.py:763-849 | The loop ends, its result is that of some complete run from what was listed, and the queue is empty. |
| InstallScannerClass.InstallPackageScanner.EnqListedPkg | cli/deploy.py:893-900 | A named package is enqueued as listed and mandatory if it is available. |
| InstallScannerClass.InstallPackageScanner.EnqInstalledPkgs | cli/deploy.py:902-909 | Exactly the available packages installed in the same slot become listed. |
| InstallScannerClass.InstallPackageScanner.InstalledPkgsMean | cli/deploy.py:902-909 | These are exactly the pairs of a package and a slot that both databases hold. |
| InstallScannerClass.InstallPackageScanner.InitDBs | cli/deploy.py:489-536 | Both databases are built from their listings, the available ones judged against the installed ones; fails if and only if one of them cannot be built, and says which. |
| InstallScannerClass.InstallPackageScanner.EnqRequests | cli/deploy.py:961-971 | Exactly what was requested becomes listed; fails if and only if a named package is unavailable or installed packages are asked for without update. |
| InstallScannerClass.Summarize | cli/deploy.py:978-984 | Lists each install that was named once and counts the installs that replace a package. |
| InstallScannerClass.InstallPackageScanner.Solve | cli/deploy.py:973-994 | The answer is that of a complete run: its installs each once and ordered by dependency, the named ones, the number of updates and the warning. |
| InstallScannerClass.InstallPackageScanner.PlanMeans | cli/deploy.py:862-885 | The order is by the forward dependencies of exactly the rows that are installed. |
| InstallScannerClass.InstallPackageScanner.Run | cli/deploy.py:911-1010 | Succeeds if and only if the options go together, both databases can be built and everything named is available; the answer is then that of a complete run over exactly what was requested. |
| InstallSort.SortInstalls | cli/deploy.py:851-891 | Every install is emitted exactly once, and a dependency emitted after its dependent can reach it back, cycles included. |
| InstallSort.AcyclicMeansDependenciesFirst | cli/deploy.py:851-891 | On acyclic installs every dependency precedes its dependent. |
| InstallSort.Sorter.SortFrom | cli/deploy.py:870-885 | Each entry emits its own package last, visits only unvisited ones and returns the path as it was. |
| InstallSort.Sorter.Enter | cli/deploy.py:872-878 | The cycle error is dead: the package entered is never on the path already. |
| InstallSort.Sorter.Emit | cli/deploy.py:879-885 | A package is emitted when all it depends on has been visited. |
| RunAttributes.EveryRunIsSafe | cbuildbot/cbuildbot_run.py:355-481 | In every interleaving: at most one queued value, mutual exclusion, only set values are returned, and after a completed set the value is queued, in a reader's hand or with the lock holder. |
| RunAttributes.QuiescentHoldsOneValue | cbuildbot/cbuildbot_run.py:355-481 | With everybody idle exactly one value is queued, or nothing was ever set. |
| RunAttributes.LatestIsLocated | cbuildbot/cbuildbot_run.py:355-481 | While all gets so far were right, only the latest value is queued, and if it is not queued it is in a reader's hand or a setter is about to replace it. |
| RunAttributes.GetsAreLatestUnlessMissed | cbuildbot/cbuildbot_run.py:425-481 | In every interleaving all gets return the latest value unless one of them finishes while another reader has that value in hand. |
| RunAttributes.GetsAreLatestExactlyWhen | cbuildbot/cbuildbot_run.py:425-481 | When no value is set twice, that is exact: all gets are right if and only if no get finishes while another reader has the latest value in hand. |
| RunAttributes.WithoutOverlapIsRegister | cbuildbot/cbuildbot_run.py:425-481 | If readers never overlap, each get returns the value of the last set before its own locked section, with any number of setters. |
| RunAttributes.TesterIsRightUnlessInHand | cbuildbot/cbuildbot_run.py:390-402 | While all gets so far were right, a tester that finds a value queued finds the latest one, and one that finds none is wrong exactly when a reader has the latest one in hand. |
| RunAttributes.TesterIsWrongExactlyWhen | cbuildbot/cbuildbot_run.py:397-402 | In every interleaving, a tester that says yes is right, and one that says no is wrong exactly when a reader has a value in hand. |
| RunAttributes.OverlapLosesTheLastSet | cbuildbot/cbuildbot_run.py:445-474 | Two overlapping readers and one set: the overwritten value is returned and stays queued. |
| RunAttributes.DefaultOverwritesExactlyWhen | cbuildbot/cbuildbot_run.py:404-420 | After a test that found nothing, a value is set before a later step, such as that of the default, if and only if a reader had a value in hand at the test or a set took place after it. |
| RunAttributes.DefaultOverwritesValueInHand | cbuildbot/cbuildbot_run.py:404-420 | A run in which a reader has the value in hand, and the default replaces it for good. |
| ParallelAttrs.LockableQueue.Lock | cbuildbot/cbuildbot_run.py:379-388 | Among any steps of others the lock is taken, or another process has it at that moment. |
| ParallelAttrs.LockableQueue.SetParallel | cbuildbot/cbuildbot_run.py:379-388 | Whatever the other processes do in between, a call is a run of the machine that records exactly one set, of this value, or waits while another one has the lock; left alone it ends with exactly the new value queued. |
| ParallelAttrs.LockableQueue.HasParallel | cbuildbot/cbuildbot_run.py:397-402 | Among any steps of others, records exactly one test with the answer returned, or waits while another one has the lock; left alone it answers whether a value is queued and changes nothing. |
| ParallelAttrs.LockableQueue.GetParallel | cbuildbot/cbuildbot_run.py:445-481 | Among any steps of others, records exactly one get with the value returned, or none and the error the timeout calls for; otherwise it waits while another one has the lock or, without timeout, for a value while none is queued; left alone it returns the queued value and leaves it queued. |
| ParallelAttrs.LockableQueue.FirstTake | cbuildbot/cbuildbot_run.py:448-458 | The unlocked take, with others acting while it waits: takes a value into hand, gives up on an empty queue, or waits for good if there is no timeout. |
| ParallelAttrs.LockableQueue.Requeue | cbuildbot/cbuildbot_run.py:463-481 | The locked section of a get, with others acting in between: exactly one get is recorded, with the value put back or with none. |
| ParallelAttrs.LockableQueue.Flush | cbuildbot/cbuildbot_run.py:463-469 | Under the lock a newer value replaces the one in hand. |
| ParallelAttrs.RunAttrs.SetParallel | cbuildbot/cbuildbot_run.py:355-388 | Records one set of a known attribute and refuses an unknown one, touching no other queue. |
| ParallelAttrs.RunAttrs.HasParallel | cbuildbot/cbuildbot_run.py:390-402 | Records one test of a known attribute; an unknown one has no value. |
| ParallelAttrs.RunAttrs.GetParallel | cbuildbot/cbuildbot_run.py:425-481 | Records one get of a known attribute, with the error the timeout calls for; an unknown one is refused. |
| ParallelAttrs.RunAttrs.SetParallelDefault | cbuildbot/cbuildbot_run.py:404-420 | A completed call has either recorded a test that found a value, and no set, or a test that found none and later a set of the default; left alone, a value that is set wins over the default. |
| ParallelAttrs.DefaultedOverwritesExactlyWhen | cbuildbot/cbuildbot_run.py:404-420 | For a completed call that set the default: when exactly it overwrote a value. |
| FieldHandler.MetIsVisible | api/field_handler.py:392-477 | Recursion meets exactly the paths outside result paths and map values. |
| FieldHandler.HandledExactlyWhen | api/field_handler.py:392-477 | A path is handled if and only if it is outside result paths and map values, is not empty and says where it is. |
| FieldHandler.UnmetIsNotMet | api/field_handler.py:392-477 | In a message in which no path occurs twice, a path is left out by the recursion if and only if it lies within a result path or a map value. |
| FieldHandler.MapPathIsNotMet | api/field_handler.py:430-477 | A path anywhere among the values of a map field belongs to the message and is never met, whatever other fields there are. |
| FieldHandler.MetIsPart | api/field_handler.py:392-477 | The paths met are those of the message in its order, with some left out, and none is met more often than it occurs. |
| FieldHandler.ExtractHandlers | api/field_handler.py:392-477 | One fresh handler for each complete path met, in order, holding its original value. |
| FieldHandler.PathHandler.Transfer | api/field_handler.py:160-218 | Unless moved before or already there, the path becomes the one the copy was given and its location the direction; a failed copy changes no field, but its temporary directory has been made if there was to be one. |
| FieldHandler.PathHandler.Cleanup | api/field_handler.py:220-227 | The path is the original again if it was to be reset, and the temporary directory is gone. |
| FieldHandler.TransferIn | api/field_handler.py:292-297 | Succeeds exactly when no transfer fails; all paths before the first failing one are moved and none after it, and exactly the handlers reached that had something to move hold a temporary directory. |
| FieldHandler.CleanupAll | api/field_handler.py:299-303 | All handled paths are back, and no temporary directory is left. |
| FieldHandler.PartialView | api/field_handler.py:296-299 | After a failed transfer nothing has changed exactly if all earlier paths were inside already. |
| FieldHandler.FailedCopyLeavesMovedPath | api/field_handler.py:292-303 | Two files of which only the first can be copied: the message is left with the first path moved. |
| FieldHandler.SameOverall | api/field_handler.py:271-303 | The message has changed exactly when a handled path has. |
| FieldHandler.CopyPathsIn | api/field_handler.py:271-303 | Entered exactly when all copies work; the body then sees the handled paths inside and all others unchanged, and whatever it does to the handled ones the whole message is restored and no temporary directory is left. If not entered, exactly the paths before the failing one are moved, so the message is intact exactly when none of them had to be, and exactly the temporary directories made up to the failing copy are left. |
| LkgmVersions.PrintRoundTrip | cbuildbot/lkgm_manager.py:78-85 | Printing a revision and reading it gives it back. |
| LkgmVersions.VersionRoundTrip | cbuildbot/lkgm_manager.py:37-85 | Parsing a printed version gives the version back, leading zeros included. |
| VersionMeaning.NumberMeans | cbuildbot/lkgm_manager.py:87-97 | Numbers are read in base ten: digits before others count for as many powers of ten more. |
| VersionMeaning.MatchMeans | cbuildbot/lkgm_manager.py:41-71 | The pattern matches exactly at three numbers between dots, as long as they go, and a revision if `-rc` and a digit follow, else revision 1. |
| VersionMeaning.SearchMeans | cbuildbot/lkgm_manager.py:67-71 | A name is no version exactly if the pattern matches nowhere in it; otherwise the first match counts. |
| LkgmVersions.TotalOrder | lib/chromeos_version.py:293-296 | The order on versions is total and transitive. |
| LkgmVersions.BelowIsLexLess | cbuildbot/lkgm_manager.py:87-97 | A version is earlier exactly if the list of build, branch, patch and revision number is smaller at the first difference. |
| LkgmVersions.LkgmCandidateInfo.IncrementVersion | cbuildbot/lkgm_manager.py:99-102 | The candidate becomes strictly later in place, and the returned name parses as it. |
| LkgmVersions.LatestSpecFromList | cbuildbot/manifest_version.py:453-464 | The first of the specs than which none has a greater list of numbers, None exactly for no specs, an error exactly for a name that is no version. |
| VersionMeaning.PrefixSelects | lib/chromeos_version.py:318-326 | Among versions as the program spells them, a publisher that increments the branch looks at those of its build, and of its branch too unless its patch number is 0; others look at all. |
| LkgmPublish.ProposalIsLaterExactlyWhen | cbuildbot/manifest_version.py:598-620 | The proposed version is later than all listed specs if and only if the own version was, or the latest is canonical and this is no dry run. |
| LkgmPublish.UnsuffixedSpecIsNotPassed | cbuildbot/manifest_version.py:598-620 | For every spec without a revision suffix, the proposal from revision 1 is not later than that spec. |
| LkgmPublish.EveryRaceIsSafe | cbuildbot/lkgm_manager.py:286-327 | From canonical specs, in every interleaving of any number of publishers, no version is published twice or by two of them, each published one is later than all it saw at its refresh and comes from no dry run, and attempts are bounded. |
| LkgmPublish.RefusedMovesOn | cbuildbot/lkgm_manager.py:286-327 | After losing a race the next proposal is later than the version that was taken. |
| LkgmPublish.CandidatesAreConsecutive | cbuildbot/lkgm_manager.py:286-327 | Publishers of one release produce candidates numbered without gaps, one per accepted push, in every interleaving. |
| LkgmManagerClass.LkgmManager.InitializeManifestVariables | cbuildbot/manifest_version.py:466-479 | Picks a greatest spec of the own prefix; fails if and only if a name there is no version. |
| LkgmManagerClass.LkgmManager.RebaseInfo | cbuildbot/lkgm_manager.py:300-313 | Continues from the latest spec unless the own version is later. |
| LkgmManagerClass.LkgmManager.GetNextVersion | cbuildbot/manifest_version.py:598-620 | Increments in place only when the own name is the latest spec, and returns the resulting name. |
| LkgmManagerClass.LkgmManager.TryOnce | cbuildbot/lkgm_manager.py:287-325 | An attempt is a sequence of steps of the race, with any steps of others in between; when exactly it fails, meets an unreadable name, finds the checkout built, or is done; and what the candidate carried into the next attempt is: the old one, the rebased one or the proposed one. |
| LkgmManagerClass.LkgmManager.CreateNewCandidate | cbuildbot/lkgm_manager.py:244-327 | The retry loop is a run of the race that ends with this publisher published (rehearsed in a dry run), skipped, broken or given up after 21 attempts, according to the result; the result is safe in the sense of the race, and a version is later than all canonical specs it was picked from. |
| SlaveStatusPolling.SlaveStatus.UpdateSlaveStatus | cbuildbot/build_status.py:155-190 | One more poll: the fields stay what the sequence of polls makes of them, and exactly the missing builds are reported. |
| SlaveStatusPolling.SlaveStatus.Completed | cbuildbot/build_status.py:310-317 | For a steady duplicate-free expectation, the answer is that all expected builds are done if only expected ones succeed; once all are done it is yes exactly in that case; in general it means that as many other builds are complete as expected ones are not. |
| SlaveStatusPolling.CompletedOnlyGrows | cbuildbot/build_status.py:266-308 | Over any polls a build counted as complete stays so. |
| SlaveStatusPolling.CompletedExactlyWhen | cbuildbot/build_status.py:266-288 | A build is complete if and only if some poll found it passed, failed, aborted, skipped or forgiven in CIDB while it was among the builders last listed and not experimental, or successful in Buildbucket. |
| SlaveStatusPolling.ExpectedMeans | cbuildbot/build_status.py:210-225 | Expected at a poll are the builders last listed that are not experimental. |
| SlaveStatusPolling.StaysExpectedExactlyWhen | cbuildbot/build_status.py:280-288 | Completed builds are all expected ones if and only if no other builder succeeds in Buildbucket. |
| SlaveStatusPolling.CountTestMeansAllDone | cbuildbot/build_status.py:310-317 | The two numbers are then equal if and only if every expected build is complete. |
| SlaveStatusPolling.FinishIsNoticedExactlyWhen | cbuildbot/build_status.py:280-317 | When every expected build is complete, the numbers agree if and only if no other builder has succeeded. |
| SlaveStatusPolling.UnexpectedSuccessFoolsTheTest | cbuildbot/build_status.py:280-317 | One success of an experimental builder makes the numbers equal while an expected build is unfinished. |

## Left out

- DependencyTrees.NeedSatisfies: one direction only, because a disjunction that resolves to nothing may still be satisfied by an atom that another part of the expression happens to ask for.
- DependencyTrees.ChoiceIsMetExactlyWhen: the converse assumes that some alternative taken hides no empty choice, for the same reason.
- ApplyTheorems.ReportedInGraphExactlyWhen: for fewer reachable changes than the depth limit; `ReportedExactlyWhen` needs no bound.
- RunAttributes.GetsAreLatestExactlyWhen: for runs in which no value is set twice, because returning an old copy of an equal value counts as right; `GetsAreLatestUnlessMissed` needs no such assumption.
- RunAttributes.WithoutOverlapIsRegister: the special case of readers that never overlap, where the register view is complete.
- ParallelAttrs.LockableQueue.GetParallel: a call that is never given the lock or a value ends as waiting when the steps of the others end; that the others release the lock is not assumed, so that a call ends is stated only for a call left alone.
- InstallPaths.ChoiceExactlyWhen: assumes that no request wants other slots as mandatory than as optional, unless it wants none as optional; like the assumptions of the next line this speaks of the databases and the list only.
- InstallOrder.OrderShowsExactlyWhen: assumes that no request wants other slots as mandatory than as optional, unless it wants none as optional, and that requests for different slots also differ in the last slot they want; otherwise the overwritten slots alone may or may not make runs differ. `ClashShows` and `ListedClashShows` need neither assumption.
- InstallOrder.OrderDoesNotMatter: assumes the first of these two.
- InstallOrder.RunWarnedRight: for agreeing requests; otherwise the flags that count are those at the time of the pop, which `StepWarnsExactlyWhen` states.
- LkgmPublish.EveryRaceIsSafe: for canonical names; `ProposalIsLaterExactlyWhen` says what happens otherwise.
- `PatchCache` with its several keys for one change: a change is its id, and gerrit is a fixed partial function of it during a series. A reassigned number or an answer that changes between two queries is not modelled.
- Git, gerrit and repo commands: a repo is a sequence of change ids, resetting restores a saved one, and a cherry-pick succeeds or leaves arbitrary debris in the repos recorded for the change, and only there.
- Python's own recursion limit, and exceptions other than patch exceptions that escape a transaction (the rollback for them is the same, the abort of `Apply` is not modelled).
- The generator `CreateTransactions` is run to its end before its results are used, as the callers modelled here do.
- The package records of `_BuildDB` are values in a map; the program shares mutable records, each of them in one place.
- Splitting and stripping package names, parsing of parentheses in dependency strings, wildcards and prompts in `_FindPackage`: the model starts from token trees and from (CP, slot) pairs.
- Install attributes, DLC images, the device agent and everything of `Deploy` that talks to a device.
- Board-specific attribute names, pickling and killed processes in `cbuildbot_run.py`; the time that passes during a timeout.
- `sync_dirs`, `extract_results` and the handlers for chroot and Goma in `field_handler.py`; presence of unset fields beyond an empty path.
- Reading specs as files (`.xml`), digits outside ASCII, comparing manifests, and the git side of publishing: a push is refused when the spec exists upstream and may fail for any other reason.
- Metrics, timeouts, cancellations and logging in `build_status.py`.
