# GitGit: a verified model

GitGit is a Git history tool with a Go backend and TypeScript front ends. This project
models the decision logic between its Git commands in Dafny and proves what that logic is
for: that the drawn graph is the parent relation, that concurrent switches, rewrites and
removals lose nothing, that the search evaluator means what the grammar says, that the
caches answer exactly, that diffs are read as what they mean, that the helper connection
settles every request once, and that plans and drafts reach what they promise.

Verify everything with `dafny verify dfyconfig.toml`.

## How it is laid out

Every part of the program is a specification, an imperative form and theorems. The
specification is a set of functions on values, with the same branches as the program. The
loops and mutating objects of the program are methods and classes, each proved equal to its
specification function or to a property stated outright. The theorems are lemmas about the
specification: for all inputs, or for all states of all runs of a step relation.

| module | models |
|---|---|
| `CommitGraph`, `CommitGraphProofs`, `CommitGraphLanes`, `CommitGraphClipping`, `CommitGraphColors`, `CommitGraphLoops` | lane allocation, compaction, clipping, colours and the layout loop of `commit-graph.ts` |
| `VisibleProjection`, `VisibleParents` | contraction of hidden commits, with the shared memo |
| `SwitchState`, `SwitchProtocol`, `SwitchProgress` | the mutex-guarded fields of `operations.go` and the protocol of concurrent calls, one step a critical section or cancel call |
| `RewriteInstall` | installation of a rewrite, with rollback, amid other writers |
| `WorktreeRemoval` | validation and removal of merged worktrees and their branches |
| `SearchGrammar`, `SearchEvaluator`, `SearchMeaning` | the AND/OR grammar, the two-stack evaluator, the validator |
| `SearchScan` | the batched early-exit scan with rename lineage |
| `SearchExpression`, `SearchText` | the text form of expressions: reader, printer, grouping |
| `HistoryCache`, `HistoryCacheProofs` | first-in-first-out maps over a range-deleted byte store |
| `HelperClient`, `HelperServer`, `HelperProtocol` | newline framing, the client's pending map, the server's registry, the whole connection |
| `DiffRanges`, `ExactDiff` | ranges and anchors of a unified diff; selection of one file's patch |
| `CommitEdit` | rewrite anchors, drafts, projection onto the target chain, the backend's range test |
| `SparsePlan` | planning and carrying out a change of a sparse checkout |
| `Ancestry`, `Common` | reachability over parents; small shared definitions |

What the model assumes: commit ids, paths that are only compared, cache keys, fingerprints
and payloads are numbers; hashing and key encoding are functions assumed injective, with
the alphabets of hexadecimal digits and base64url (section 5 of RFC 4648); matchers are
arbitrary predicates; texts are well-formed Unicode, and white space is what JavaScript or
Go, whichever reads the text, takes for it; Git commands, the file system, wall clocks and randomness are inputs
or choices of the environment. Other processes may move branches between any two steps but
do not touch recovery refs, and recovery refs have distinct names.

## Model

| member | source | states |
|---|---|---|
| CommitGraphLoops.AvailableLaneColor | apps/desktop/frontend/src/lib/commit-graph.ts:157-166 | the least unused colour from the start colour on, found in two loops |
| CommitGraphLoops.CompactLanes | apps/desktop/frontend/src/lib/commit-graph.ts:143-155 | keeps lane 0 when reserved and the first lane of every commit, in order |
| CommitGraphLoops.KeepUniqueEdges | apps/desktop/frontend/src/lib/commit-graph.ts:168-176 | the first edge of every pair of ends, in order |
| CommitGraphLoops.DefaultChain | apps/desktop/frontend/src/lib/commit-graph.ts:211-218 | collects exactly the commits of the default head's first-parent chain |
| CommitGraphLoops.PlaceAllParents | apps/desktop/frontend/src/lib/commit-graph.ts:255-275 | the loop over parents leaves the lanes and colours of the specification, whose colours `FirstParentKeepsTheColor` and `RowsAreLaidOut` give |
| CommitGraphLoops.LayOutCommit | apps/desktop/frontend/src/lib/commit-graph.ts:225-295 | one iteration yields the specified next lanes and unclipped row, which `RowsAreLaidOut` describes apart from the specification |
| CommitGraphLoops.BuildCommitGraph | apps/desktop/frontend/src/lib/commit-graph.ts:201-309 | exactly one row per commit, the specified clipped row, and the lane count; `RowsAreLaidOut` and `ClippedRowsKeepColors` say what the rows are |
| CommitGraphProofs.OpenKeeps | apps/desktop/frontend/src/lib/commit-graph.ts:227-240 | giving a commit its lane keeps lanes on different commits and colours |
| CommitGraphProofs.PlaceParentsPlaces | apps/desktop/frontend/src/lib/commit-graph.ts:255-275 | after placing parents the lanes carry what they carried and exactly those parents besides |
| CommitGraphProofs.CompactKeeps | apps/desktop/frontend/src/lib/commit-graph.ts:143-155 | compaction loses no commit and leaves no hole beside the reserved lane |
| CommitGraphProofs.BoundaryHolds | apps/desktop/frontend/src/lib/commit-graph.ts:225-306 | at every row boundary of every history, active lanes hold different commits and colours, none already drawn |
| CommitGraphProofs.LaneZeroIsTheDefaultBranch | apps/desktop/frontend/src/lib/commit-graph.ts:211-242 | lane 0 carries the nodes of the default first-parent chain and no others |
| CommitGraphProofs.EdgesAreTheParentRelation | apps/desktop/frontend/src/lib/commit-graph.ts:225-306 | following lines row by row from a commit ends at its parents' nodes, or off the end for parents not loaded, and reaches every parent |
| CommitGraphProofs.NextEdgeIsUnique | apps/desktop/frontend/src/lib/commit-graph.ts:283-295 | where one line ends at most one line of the next row begins |
| CommitGraphLanes.RowLaysSo | apps/desktop/frontend/src/lib/commit-graph.ts:225-295 | from any lanes of a row boundary: which lane the node takes, its colour, which lines pass, come in and go out, from which lane to which and in which colour |
| CommitGraphLanes.RowsAreLaidOut | apps/desktop/frontend/src/lib/commit-graph.ts:201-306 | so it is for every row of every history: the node is in the lane above that expects it and has its colour, or in lane 0 on the default chain, else in a new last lane with the least colour free; parents that need a lane get one, the first the hole the node leaves; unused lanes are compacted below it |
| CommitGraphLanes.FirstParentKeepsTheColor | apps/desktop/frontend/src/lib/commit-graph.ts:255-275 | in every row of every history the line to the first parent has the colour of the node, unless the commit is off the default chain and a line above the row already runs to that parent, when it has the colour of that line |
| CommitGraphClipping.LimitRowClips | apps/desktop/frontend/src/lib/commit-graph.ts:178-199 | clipping maps both ends of every edge to the overflow lane at most, keeps of the edges with the same clipped ends exactly the first, with its colour, and the node colour, and marks an overflow exactly when some lane used is at or beyond the limit, the node overflowing exactly when its own is |
| CommitGraphClipping.ClippedRowsKeepColors | apps/desktop/frontend/src/lib/commit-graph.ts:178-199 | so it is for every row of every graph: each line of a clipped row has the colour of the first unclipped line with those clipped ends, the node colour is unchanged |
| CommitGraphClipping.ClippedRowsConnect | apps/desktop/frontend/src/lib/commit-graph.ts:178-199 | after clipping the lane ends of a row are the lane starts of the next, except for a newly opened tip |
| CommitGraphClipping.LaneCountBounds | apps/desktop/frontend/src/lib/commit-graph.ts:297-308 | every lane used is below laneCount, and laneCount is at most the limit plus one |
| CommitGraphClipping.LaneCountIsNeeded | apps/desktop/frontend/src/lib/commit-graph.ts:297-308 | the last lane counted is used by some row, unless only the reserved lane is counted |
| CommitGraphColors.RowHasColors | apps/desktop/frontend/src/lib/commit-graph.ts:244-295 | every line begins in the colour of its lane above the row and ends in that of its lane below it, except exactly passing lines that run from another lane into the default branch's |
| CommitGraphColors.LinesKeepTheirColor | apps/desktop/frontend/src/lib/commit-graph.ts:225-306 | in every history where one row's line ends and the next row's begins the colour is the same, with exactly that exception |
| VisibleProjection.ReachableCommits | apps/desktop/frontend/src/lib/commit-graph.ts:66-76 | the worklist returns exactly the start and its ancestors |
| VisibleProjection.ProjectVisibleCommits | apps/desktop/frontend/src/lib/commit-graph.ts:29-57 | the memoised recursion returns the plain contraction, which `ParentsAreFirstMet` and `ParentsAreNearest` describe apart from it |
| VisibleProjection.NearestVisibleParents | apps/desktop/frontend/src/lib/commit-graph.ts:35-50 | the shared memo never changes an answer, and the visiting guard never fires on an acyclic history |
| VisibleProjection.ProjectionPreservesAncestry | apps/desktop/frontend/src/lib/commit-graph.ts:29-57 | one visible commit is an ancestor of another after projection exactly when it was before |
| VisibleParents.ParentsAreFirstMet | apps/desktop/frontend/src/lib/commit-graph.ts:29-57 | every listed commit has exactly the parents first met when its original parents are followed in order, through hidden commits, each once; commits keep their order |
| VisibleParents.ParentsAreNearest | apps/desktop/frontend/src/lib/commit-graph.ts:35-50 | b is a projected parent of a visible commit exactly when a path leads from it to b whose inner commits are all loaded and hidden and b is visible or not loaded |
| VisibleParents.VisibleParentsStay | apps/desktop/frontend/src/lib/commit-graph.ts:46-56 | a visible commit whose parents are distinct and all visible is listed unchanged |
| VisibleProjection.ProjectionIsTopological | apps/desktop/frontend/src/lib/commit-graph.ts:29-57 | the projected history still lists children before parents, with distinct ids |
| VisibleProjection.ProjectionListsVisible | apps/desktop/frontend/src/lib/commit-graph.ts:30-56 | the result lists exactly the visible loaded commits, if and only if the size shortcut is not taken for a different set of the same size |
| VisibleProjection.LoadedAreListed | apps/desktop/frontend/src/components/CommitTable.svelte:72 | asked for loaded commits only, as its caller asks, the projection lists exactly those |
| VisibleProjection.HiddenCommitListed | apps/desktop/frontend/src/lib/commit-graph.ts:30 | a history and a visible set, one id of which is not loaded, for which a hidden commit is listed |
| SwitchState.Service.BeginOperationWithKey | internal/desktop/operations.go:20-45 | registers the operation and hands over the superseded one's cancel function |
| SwitchState.Service.FinishOperation | internal/desktop/operations.go:47-55 | forgets the operation, and its key only while the key is still its own |
| SwitchState.Service.ReserveRepositorySwitch | internal/desktop/operations.go:64-69 | takes the next generation |
| SwitchState.Service.BeginReservedRepositorySwitch | internal/desktop/operations.go:71-94 | refuses an old generation; else collects every cancel function and starts switching |
| SwitchState.Service.CompleteRepositorySwitch | internal/desktop/operations.go:108-117 | installs only for the newest generation |
| SwitchState.Service.FailRepositorySwitch | internal/desktop/operations.go:119-125 | gives up only its own switch |
| SwitchState.Service.CancelOperations | internal/desktop/operations.go:127-144 | collects and forgets every operation and the search |
| SwitchState.Service.BeginSearch | internal/desktop/service.go:900-908 | cancels the previous search and takes the slot |
| SwitchState.Service.FinishSearch | internal/desktop/service.go:909-916 | clears the slot only while it is its own |
| SwitchState.Service.CancelSearch | internal/desktop/service.go:946-954 | cancels the running search and outdates its id |
| SwitchState.Service.CurrentRepository | internal/desktop/service.go:956-966 | none while switching, else exactly the installed repository |
| SwitchProtocol.StepKeeps | internal/desktop/operations.go:20-144 | every step of every call keeps the protocol's invariant |
| SwitchProtocol.StaleHandlesAreDue | internal/desktop/operations.go:71-106 | in every reachable state an operation holding a repository other than the installed one is cancelled or on a collected list |
| SwitchProtocol.MutationsUseTheInstalledRepository | internal/desktop/service.go:200-228 | a rewrite or removal under the mutation mutex always works on the installed repository |
| SwitchProtocol.QuiescentMeansNotSwitching | internal/desktop/service.go:200-228 | when no Open is in progress no switch is pending |
| SwitchProtocol.OnlyTheNewestInstalls | internal/desktop/operations.go:108-117 | only the newest reserved generation installs, and it installs what it opened |
| SwitchProtocol.InstallsAreNewerAndNewer | internal/desktop/operations.go:64-117 | installed generations only grow over a run |
| SwitchProtocol.LaterInstallsAreNewer | internal/desktop/operations.go:64-117 | of two changes of the installed repository in a run the later is made by a newer generation |
| SwitchProtocol.LatestReadWins | internal/desktop/operations.go:29-45 | of two reads with one key at most one is neither cancelled nor about to be |
| SwitchProtocol.LatestSearchWins | internal/desktop/service.go:888-954 | of two running searches at most one is neither cancelled nor about to be |
| SwitchProgress.RegisteredGetsTheRepository | internal/desktop/service.go:956-966 | in every run a registered call with nothing left to cancel gets exactly the installed repository and works with it, unless a switch is pending or nothing is installed, when it ends |
| SwitchProgress.NewestOpeningInstalls | internal/desktop/operations.go:108-117 | in every run an opening call with nothing left to cancel installs its target and ends the switch exactly when its generation is the newest |
| SwitchProgress.UndisturbedWork | internal/desktop/operations.go:20-55 | a read, search or mutation no other call interrupts works with the installed repository, leaves all fields as it found them but for the ids and the keys it superseded, and cancels exactly what it superseded |
| SwitchProgress.UndisturbedOpen | internal/desktop/operations.go:64-125 | an Open no other call interrupts and that does not give up installs its target, cancels every operation and search there was, and leaves no switch pending |
| SwitchProgress.CancelAllForgets | internal/desktop/operations.go:127-144 | cancelling everything collects every operation and search in one step and forgets them |
| SwitchProgress.StopSearchStops | internal/desktop/service.go:946-954 | stopping the search cancels it in one step and outdates its id |
| SwitchProgress.NobodyWaitsForEver | internal/desktop/service.go:200-228 | no deadlock: in every reachable state a call that is not done can take a step, or the holder of the mutation mutex can |
| SwitchProgress.CallsFinish | internal/desktop/service.go:200-228 | every step of a call takes it further along a finite course, and touches no other call |
| RewriteInstall.InstallRewrite | internal/desktop/commit_rewrite.go:431-455 | the ordered commands are the steps of the model, whatever each finds and replies, and each outcome is reported exactly for the replies and findings that call for it |
| RewriteInstall.RollBack | internal/desktop/commit_rewrite.go:474-484 | the two rollback commands are the model's rollback steps; it reports a rollback exactly when the move back took the new head away and the restored tree was read |
| RewriteInstall.OldHeadStaysRecoverable | internal/desktop/commit_rewrite.go:436-443 | in every state after a command of a rewriter changed the branch its recovery ref holds the old head |
| RewriteInstall.NothingElseIsOverwritten | internal/desktop/commit_rewrite.go:440-484 | under arbitrary moves by others a rewriter only replaces the old head by the new or the new by the old |
| RewriteInstall.SuccessWasSeen | internal/desktop/commit_rewrite.go:451-455 | a rewriter that has succeeded did so with a command that found, in that very state of the run, HEAD at its new head |
| RewriteInstall.OutcomeTellsTheTruth | internal/desktop/commit_rewrite.go:431-484 | undisturbed, each outcome says where branch and worktree are, for every pattern of failing commands: at the new head when succeeded or when HEAD was elsewhere, at the old one when refused, unless the leased move took effect though reported failed, or when rolled back; after a failed rollback the branch is at the new head exactly when the move back had no effect |
| RewriteInstall.RepliesDecide | internal/desktop/commit_rewrite.go:431-484 | undisturbed, the replies and the starting state alone decide: success when all commands succeed and HEAD is not detached elsewhere, refusal when one of the first three does not succeed, a rollback exactly when the fourth fails, reported as done exactly when the fifth and sixth succeed; and where branch, worktree and index are then |
| RewriteInstall.FoundDecides | internal/desktop/commit_rewrite.go:431-484 | amid other writers what each command found and was replied decides the outcome in the same way |
| RewriteInstall.InstallationIsRun | internal/desktop/commit_rewrite.go:431-484 | the commands of an installation, amid processes that leave its recovery ref alone, are a run of the model |
| RewriteInstall.InstallationIsSafe | internal/desktop/commit_rewrite.go:431-484 | whatever an installation found and was replied, it ends with the old head recoverable once one of its commands changed the branch, and reports success only if one of its commands found HEAD at the new head |
| RewriteInstall.UndisturbedIsAlone | internal/desktop/commit_rewrite.go:431-484 | an installation that finds what it left is the undisturbed one |
| WorktreeRemoval.ValidateTargets | internal/desktop/service.go:404-458 | the loop with its set of seen paths is the specified validation, whose verdict `FirstRefusalDecides` gives |
| WorktreeRemoval.AllPathsPassed | internal/desktop/service.go:404-458 | validation succeeds exactly when every requested path is registered and neither root, and its worktree attached, unlocked, not on the default branch, clean and merged, and Git answered clean, this head, merged |
| WorktreeRemoval.FirstFaultDecides | internal/desktop/service.go:412-457 | a path passes if and only if nothing is wrong with it, and each error is given exactly when its test is the first to fail |
| WorktreeRemoval.FirstRefusalDecides | internal/desktop/service.go:404-458 | validation ends with an error exactly when some first path is refused with it |
| WorktreeRemoval.TargetsAreInOrder | internal/desktop/service.go:404-458 | the targets are in the order in which the paths were first requested |
| WorktreeRemoval.TargetsAreThePaths | internal/desktop/service.go:404-458 | the targets are the requested paths, each once, with the branch head that was read |
| WorktreeRemoval.DeletionLosesNothing | internal/desktop/service.go:460-483 | a branch is deleted only after its worktree was removed and while default branch and branch are at the verified heads; whatever others did, and though the deletion may be reported failed, every commit it kept reachable is reachable from the default branch at that instant |
| WorktreeRemoval.NothingStartsUnvalidated | internal/desktop/service.go:404-467 | no removal starts unless every requested path passed: from what Git answered in the steps of the run the validating loop makes these targets, each registered, not a root, attached, unlocked and clean in the snapshot, not the default branch, merged, and at the head its worktree reported; and of each an earlier step of the run was answered that its status is clean and its branch merged and at that head |
| WorktreeRemoval.RefusalChangesNothing | internal/desktop/service.go:404-458 | a refused run has removed nothing, and the validating loop refuses what Git answered in it |
| WorktreeRemoval.ValidationGoesOn | internal/desktop/service.go:404-458 | in every run validation goes on to the next path exactly when this one was seen before or passes |
| WorktreeRemoval.RemovalGoesOn | internal/desktop/service.go:460-483 | in every run removal goes on to the next target, with this branch deleted, exactly when the worktree was removed, both refs are at the verified heads and the transaction is reported done; else it stops |
| WorktreeRemoval.AllBranchesGo | internal/desktop/service.go:460-483 | a run of such steps deletes exactly the branches of the targets, in order |
| WorktreeRemoval.GoodRunDeletesAll | internal/desktop/service.go:404-483 | a run in which every path passes and every step works deletes the branch of every requested path and nothing else |
| SearchGrammar.ParseInvertsText | internal/app/search.go:617-669 | the grammar, AND tighter than OR with nesting groups, is unambiguous: parsing a tree's text gives the tree |
| SearchGrammar.TextInvertsParse | internal/app/search.go:617-669 | whatever parses is the text of what it parses to |
| SearchEvaluator.EvaluateSearchExpression | internal/app/search.go:617-669 | the two-stack evaluator never underflows, takes a malformed exit exactly when the list is no expression, and returns the value of the parsed expression |
| SearchEvaluator.NormalizedSearchPredicates | internal/app/search.go:561-615 | normalises the predicates, or those the pattern lists stand for, one by one and in order, and accepts them when the groups balance; else the error of the first invalid one, or of the groups |
| SearchEvaluator.BalancedParses | internal/app/search.go:603-614 | the lists the validator accepts are exactly those that spell an expression |
| SearchEvaluator.AcceptedSpellsOneExpression | internal/app/search.go:617-669 | an accepted list is the text of exactly one expression |
| SearchEvaluator.AcceptedIsMonotone | internal/app/search.go:617-669 | more hits never lose a match |
| SearchMeaning.PlainRowsMean | internal/app/search.go:617-669 | without groups a list matches exactly when all hits of some run of rows joined by AND are given |
| SearchMeaning.GroupsKeepTheValue | internal/app/search.go:617-669 | a group around a whole expression changes nothing |
| SearchMeaning.NormalizedIs | internal/app/search.go:561-601 | what one predicate is normalised to, or which error is the first that applies |
| SearchMeaning.RequestedAre | internal/app/search.go:561-575 | the predicates of a request: those listed, else those its pattern lists stand for, in order |
| SearchMeaning.FoldedNames | internal/app/search.go:577-601 | which spellings of sources and joins are read as which |
| SearchScan.MatchFileChange | internal/app/search.go:727-748 | the specified hit and the tracked paths it leaves |
| SearchScan.MatchFollowsLineage | internal/app/search.go:727-748 | with rename following a change of a list of changes matches exactly when a walk back through renames reaches a matching path |
| SearchScan.FileHitFollowsLineage | internal/app/search.go:203-214 | what a FILE predicate says of a change of any commit of a search is whether its lineage, through that and newer commits, reaches a matching path |
| SearchScan.SearchFollowsLineage | internal/app/search.go:147-291 | the commits a search finds are those whose message, or one of whose changes with its lineage, satisfies the expression |
| SearchScan.Search | internal/app/search.go:147-291 | the first limit commits that satisfy the per-file-or-message meaning, each with its matched files, in order, HasMore exactly when there are more, for every batch size |
| SearchScan.FilesFollowLineage | internal/app/search.go:199-253 | the files listed with a commit are exactly those whose changes, with their lineage, satisfy the expression and one of its file predicates |
| SearchScan.MatchingIsExact | internal/app/search.go:166-291 | the specified matches are exactly the commits that satisfy the expression, each once, in order |
| SearchScan.ScanCommit | internal/app/search.go:168-281 | one commit matches exactly when its message or one of its files satisfies the expression, and its matched files are the specified ones |
| SearchScan.FilteringCommutes | internal/app/search.go:147-291 | author and date filtering while renames are followed leaves, of the list of unfiltered matches, exactly those the filter admits, in order |
| SearchScan.FilteredListingSuffices | internal/app/search.go:147-163 | when renames are not followed, searching only the listed commits the filter admits finds the same |
| SearchExpression.ParseSearchExpression | apps/desktop/frontend/src/lib/search-expression.ts:70-142 | the cursor-walking reader returns the rows and error of the specification |
| SearchExpression.NextSearchExpressionJoin | apps/desktop/frontend/src/lib/search-expression.ts:27-55 | finds the first unquoted join in front of a condition |
| SearchExpression.ReadIsBalanced | apps/desktop/frontend/src/lib/search-expression.ts:70-142 | every text read without error gives balanced groups with at most eight openings a row |
| SearchExpression.UnclosedGroupsAreCounted | apps/desktop/frontend/src/lib/search-expression.ts:128-141 | text that ends with groups open is read with the rows it has and reports as many missing closings as are open |
| SearchExpression.ReadingInvertsPrinting | apps/desktop/frontend/src/lib/search-expression.ts:70-182 | printing and reading back returns every canonical list with no error |
| SearchExpression.QuotesAreNotKept | apps/desktop/frontend/src/lib/search-expression.ts:58-182 | a quoted value is printed without its quotes, and what is printed reads as another value |
| SearchText.QuotedValuesAreRead | apps/desktop/frontend/src/lib/search-expression.ts:57-122 | a quoted value is read as what stands between the quotes, unless `UnknownSourceIs` refuses it |
| SearchText.QuotedValueCanBeRefused | apps/desktop/frontend/src/lib/search-expression.ts:116-119 | a quoted value that is refused |
| SearchText.DanglingIs | apps/desktop/frontend/src/lib/search-expression.ts:112-115 | a value is refused for a dangling join exactly when it is something on one line, white space, a join, and only white space and openings |
| SearchText.UnknownSourceIs | apps/desktop/frontend/src/lib/search-expression.ts:116-119 | a value is refused for an unknown source exactly when a join between white space, a label and a colon stand in it |
| SearchText.SourcesAreSpelled | apps/desktop/frontend/src/lib/search-expression.ts:14-20 | the spellings of the three sources, in any case |
| SearchText.JoinsAreSpelled | apps/desktop/frontend/src/lib/search-expression.ts:43-44 | the spellings of the two joins, in any case |
| SearchText.BlankIsNothing | apps/desktop/frontend/src/lib/search-expression.ts:71 | blank text is no rows and no error |
| SearchText.TooManyAreReported | apps/desktop/frontend/src/lib/search-expression.ts:81-85 | text that begins with more than eight openings is reported |
| SearchText.MissingSourceIsReported | apps/desktop/frontend/src/lib/search-expression.ts:88-95 | text that begins like no source is reported |
| SearchText.MissingColonIsReported | apps/desktop/frontend/src/lib/search-expression.ts:90-93 | the word of a source, in any case, with no colon behind it is reported |
| SearchText.EmptyPatternIsReported | apps/desktop/frontend/src/lib/search-expression.ts:110-111 | a source and colon with no value behind it are reported |
| SearchText.OpenQuoteIsReported | apps/desktop/frontend/src/lib/search-expression.ts:60-62 | a quote that is not closed is reported |
| SearchText.DanglingJoinIsReported | apps/desktop/frontend/src/lib/search-expression.ts:112-115 | a join with nothing behind it is reported |
| SearchText.RemovalLeavesTheRest | apps/desktop/frontend/src/lib/search-expression.ts:157-171 | removing a row leaves the other rows, with the groups it opened and closed moved to its neighbours |
| SearchText.GroupingAddsOneGroup | apps/desktop/frontend/src/lib/search-expression.ts:184-191 | grouping a range adds one opening and one closing and nothing else |
| SearchText.UngroupingTakesOneGroup | apps/desktop/frontend/src/lib/search-expression.ts:193-209 | ungrouping takes one opening and one closing, if both are there, and nothing else |
| SearchExpression.GroupingKeepsBalance | apps/desktop/frontend/src/lib/search-expression.ts:184-209 | grouping a range keeps a list balanced, and ungrouping it gives the list back |
| SearchExpression.UngroupingKeepsBalance | apps/desktop/frontend/src/lib/search-expression.ts:193-209 | ungrouping keeps a balanced list balanced if and only if some group is open all the way between the two rows |
| SearchExpression.RemovalKeepsBalance | apps/desktop/frontend/src/lib/search-expression.ts:157-171 | removing a row keeps a balanced list balanced if and only if it is the only row or closes no more groups than were open before it |
| SearchExpression.BalanceCanBeLost | apps/desktop/frontend/src/lib/search-expression.ts:157-209 | concrete lists that removal and ungrouping unbalance |
| SearchExpression.SearchExpressionError | apps/desktop/frontend/src/lib/search-expression.ts:144-155 | finds no fault exactly in balanced lists with at most eight groups each way on a row |
| HistoryCache.RangeIsPrefix | internal/desktop/persistent_cache.go:245-250 | in byte order the range from a prefix to its limit holds exactly the keys that continue it below 0xff |
| HistoryCache.PrefixIsExact | internal/desktop/persistent_cache.go:226-243 | a repository prefix begins the keys of its namespace and repository and no others, nor any metadata key |
| HistoryCache.RangeDeletionIsExact | internal/desktop/persistent_cache.go:208-216 | range deletion removes exactly the keys of one namespace and repository |
| HistoryCache.InvalidationIsExact | internal/desktop/persistent_cache.go:187-224 | a changed fingerprint removes exactly the ref-scoped entries of one repository |
| HistoryCache.Service.CacheForRepository | internal/desktop/cache.go:242-258 | admits a repository, evicting the oldest at the bound |
| HistoryCache.Service.RefreshRefCache | internal/desktop/cache.go:260-271 | a changed fingerprint clears the three ref maps and keeps the details |
| HistoryCache.Service.TrimCache | internal/desktop/cache.go:285-291 | drops the oldest keys down to the bound |
| HistoryCache.Service.EnsureFingerprint | internal/desktop/persistent_cache.go:191-224 | invalidates in one batch that happens wholly or not at all |
| HistoryCache.Service.LoadPersistent | internal/desktop/persistent_cache.go:114-124 | reads only under an ensured fingerprint |
| HistoryCache.Service.StorePersistent | internal/desktop/persistent_cache.go:126-136 | writes only under an ensured fingerprint |
| HistoryCache.Service.Cached | internal/desktop/cache.go:145-161 | memory first, then the store, filling memory on a hit |
| HistoryCache.Service.StoreValue | internal/desktop/cache.go:163-176 | stores in both tiers |
| HistoryCacheProofs.TrimKeepsTheNewest | internal/desktop/cache.go:285-291 | trimming keeps the newest keys with their values |
| HistoryCacheProofs.PutKeeps | internal/desktop/cache.go:163-172 | storing under a held key leaves the order alone, a new key goes last, the bound holds |
| HistoryCacheProofs.CallChangesMemory | internal/desktop/cache.go:145-291 | what each call does to the values held in memory: which are gone, which are kept, which one is new |
| HistoryCacheProofs.CallChangesStore | internal/desktop/persistent_cache.go:114-224 | what each call does to the store, for every pattern of failures |
| HistoryCacheProofs.LaunchesForgetMemory | internal/desktop/persistent_cache.go:49-65 | a launch begins with nothing in memory and the store as it was, or wiped |
| HistoryCacheProofs.RunsAreTidy | internal/desktop/cache.go:242-291 | in every run key lists are duplicate-free, equal to the map domains and within their bounds |
| HistoryCacheProofs.HitsAreExact | internal/desktop/cache.go:145-176 | after any run with any failures, restarts and evictions a hit returns a value stored for exactly this repository, fingerprint, namespace and key |
| HistoryCacheProofs.TwoTiersAreOneTable | internal/desktop/persistent_cache.go:114-136 | while the store works a load answers what one unbounded table, cleared of a repository's ref entries exactly when its fingerprint changes, would answer |
| HistoryCacheProofs.StoredIsFound | internal/desktop/cache.go:163-176 | a value just stored is found at once, whatever fails in the store |
| HelperClient.ChunksDoNotShow | apps/vscode/src/helper/client.ts:285-302 | the lines handed on, their effect, and whether and why the client stops depend only on the concatenated bytes |
| HelperClient.LinesArrive | apps/vscode/src/helper/client.ts:285-302 | lines written by the helper arrive each once and in order, however the bytes are cut |
| HelperClient.LinesThen | apps/vscode/src/helper/client.ts:285-302 | what follows lines that are handed on is read as if it came alone, to a client that has taken those lines |
| HelperClient.BadLineStops | apps/vscode/src/helper/client.ts:285-333 | a line that is no reply stops the client with an error, and nothing after it counts |
| HelperClient.LongLineStops | apps/vscode/src/helper/client.ts:285-302 | more bytes than allowed without a newline stop the client with an error |
| HelperClient.EmptyLineIsSkipped | apps/vscode/src/helper/client.ts:285-302 | an empty line is skipped |
| HelperClient.HelperClient.AcceptStdout | apps/vscode/src/helper/client.ts:285-302 | the consuming loop is the specified framing of one chunk |
| HelperClient.HelperClient.AcceptLine | apps/vscode/src/helper/client.ts:304-333 | settles the pending request a reply names, stops on a bad line |
| HelperClient.HelperClient.Issue | apps/vscode/src/helper/client.ts:227-270 | refuses when closed, cancelled or full; else takes the next id and sends one request |
| HelperClient.HelperClient.Cancel | apps/vscode/src/helper/client.ts:249-256 | settles a pending request as cancelled and notifies the helper, else does nothing |
| HelperClient.HelperClient.FailWrite | apps/vscode/src/helper/client.ts:264-268 | a failed write settles its own request only |
| HelperClient.HelperClient.StopWithError | apps/vscode/src/helper/client.ts:343-348 | stops once, settling everything pending |
| HelperClient.HelperClient.RejectAll | apps/vscode/src/helper/client.ts:350-356 | every pending request is settled, each once, none left |
| HelperServer.Registry.RegisterCancellation | internal/vscodehelper/server.go:585-597 | refuses a key in use, and registers nothing for ids without a key |
| HelperServer.Registry.FinishRequest | internal/vscodehelper/server.go:599-607 | removes the registration of one key |
| HelperServer.Registry.HandleCancel | internal/vscodehelper/server.go:609-626 | finds the cancel function of one key, to be called outside the lock |
| HelperServer.Registry.CancelAll | internal/vscodehelper/server.go:628-638 | collects every registered cancel function |
| HelperServer.InFlightIdsAreDistinct | internal/vscodehelper/server.go:86-132 | whatever the other side sends, no two handlers in flight have one id |
| HelperServer.OnlyItsHandlerUnregisters | internal/vscodehelper/server.go:109-132 | a registration ends only when its own handler finishes; no duplicate removes it |
| HelperServer.DuplicatesAreRefused | internal/vscodehelper/server.go:86-106 | a request starts no handler and is refused exactly when its id is in flight |
| HelperServer.OnlyAskedHandlersAreCancelled | internal/vscodehelper/server.go:609-638 | a handler is cancelled only if its own cancellation was read, or the input failed, while it was in flight |
| HelperServer.CancelReachesItsHandler | internal/vscodehelper/server.go:609-626 | a cancellation that names a request in flight cancels its handler and no other |
| HelperServer.FailedInputCancelsAll | internal/vscodehelper/server.go:134-146 | an input that fails has every handler in flight cancelled; one that ends has none |
| HelperServer.HandlersAnswerAndFinish | internal/vscodehelper/server.go:112-132 | a handler answers once under the id of its request, then its id is free again |
| HelperServer.MalformedIsReported | internal/vscodehelper/server.go:77-85 | a line that is no request is answered with an error and starts nothing |
| HelperServer.ServeLeavesNothing | internal/vscodehelper/server.go:134-146 | once every handler has finished nothing stays registered |
| HelperProtocol.SettlesAtMostOnce | apps/vscode/src/helper/client.ts:227-356 | in every run of client, server and channels no request settles twice, and none settled is still pending |
| HelperProtocol.SettlesByItsOwnCause | apps/vscode/src/helper/client.ts:326-356 | a request settles only by its own cancellation, failed write, the stop of the client, or the answer of the one handler started for it |
| HelperProtocol.OutcomesAreFinal | apps/vscode/src/helper/client.ts:326-341 | later steps never change an outcome |
| HelperProtocol.LateReplySettlesNothing | apps/vscode/src/helper/client.ts:326-327 | a reply to a request already settled changes nothing |
| HelperProtocol.NoRequestIsForgotten | apps/vscode/src/helper/client.ts:227-270 | every request issued is pending or settled |
| HelperProtocol.RequestsAreIssued | apps/vscode/src/helper/client.ts:227-270 | an open client below the limit issues a request that is not cancelled and fits, and sends it |
| HelperProtocol.RepliesSettle | apps/vscode/src/helper/client.ts:326-333 | a reply to a pending request settles it with what it carries |
| HelperProtocol.FailedWritesSettle | apps/vscode/src/helper/client.ts:264-268 | a failed write settles its pending request with that failure |
| HelperProtocol.StoppingSettlesAll | apps/vscode/src/helper/client.ts:343-356 | stopping settles everything pending with the reason and leaves the client closed |
| HelperProtocol.RequestIsAnswered | apps/vscode/src/helper/client.ts:227-333 | a request carried by working channels to a handler that answers settles with that answer |
| HelperProtocol.CancellationArrives | apps/vscode/src/helper/client.ts:249-256 | cancelling a pending request settles it, and the notification carried to the server cancels its handler |
| HelperProtocol.LateCancellationDoesNothing | apps/vscode/src/helper/client.ts:249-256 | cancelling a request that is settled changes nothing |
| HelperProtocol.PendingIsBounded | apps/vscode/src/helper/client.ts:237-239 | at most 64 requests are pending, none once the client has stopped |
| HelperProtocol.OnlyGivenUpRequestsAreCancelled | internal/vscodehelper/server.go:609-626 | unless its input failed the server cancels a handler only after the client gave up that very request |
| DiffRanges.ParseUnifiedRanges | internal/vscodehelper/search_diff.go:557-646 | the ranges cover exactly the target lines added, as sorted intervals with gaps; the anchors are exactly the places of deletions, strictly increasing, between 1 and max(1, target line count); an error exactly for an unreadable header |
| DiffRanges.RangesMean | internal/vscodehelper/search_diff.go:557-646 | a line is covered exactly when some hunk adds it, and an anchor exactly the place of a deletion, counted from the hunk's header line by line |
| DiffRanges.AddedMeans | internal/vscodehelper/search_diff.go:557-646 | the added lines of the specification are those, each at its hunk's start and the target lines before it |
| DiffRanges.DeletedMeans | internal/vscodehelper/search_diff.go:557-646 | likewise the places of deletions |
| DiffRanges.AppendRange | internal/vscodehelper/search_diff.go:648-659 | appending or merging, overlaps included, covers what was covered and the candidate from the start of the last range on, and keeps the gaps |
| DiffRanges.EarlierLinesAreNotAdded | internal/vscodehelper/search_diff.go:648-659 | a range and a candidate that begins before it, two lines of which are not added |
| DiffRanges.GappedIsUnique | internal/vscodehelper/search_diff.go:648-659 | sorted intervals with gaps are determined by the lines they cover |
| ExactDiff.ParseRawFileChanges | internal/vscodehelper/search_diff.go:452-493 | the index loop reads the records of the specification, or its error |
| ExactDiff.PatchHeaderStarts | internal/vscodehelper/search_diff.go:495-510 | exactly the offsets of lines that begin a patch, in order, or none when the text does not begin with one |
| ExactDiff.SelectExactFileDiff | internal/vscodehelper/search_diff.go:403-445 | the specified selection, with every error case |
| ExactDiff.HeadersPartitionPatches | internal/vscodehelper/search_diff.go:495-510 | the header offsets partition the text of any list of patches |
| ExactDiff.SelectionReturnsItsOwnPatch | internal/vscodehelper/search_diff.go:403-493 | from the raw records and patches of any list of changes, selecting a change returns exactly its own patches up to trailing newlines, two for a blob and gitlink type change |
| ExactDiff.UnreportedIsNotFound | internal/vscodehelper/search_diff.go:403-445 | a change not reported is not found |
| ExactDiff.HeaderStartsAre | internal/vscodehelper/search_diff.go:495-510 | the offsets found are those of a header at the start or behind a newline, and none when the text begins with something else |
| ExactDiff.BadRecordIsRefused | internal/vscodehelper/search_diff.go:452-493 | behind any records, one whose fields are not five, that does not begin with a colon or whose status is unknown is refused |
| ExactDiff.RenameWithoutPathsIsRefused | internal/vscodehelper/search_diff.go:452-493 | records that end in a rename or copy without its two paths are refused |
| ExactDiff.MissingPathIsNotReported | internal/vscodehelper/search_diff.go:452-493 | the refusal for a missing path is never given: a record at the end of the output is read with an empty path |
| ExactDiff.WrongCountIsRefused | internal/vscodehelper/search_diff.go:416-429 | patches are refused exactly when they are not as many as the records call for |
| ExactDiff.NoBoundaryIsRefused | internal/vscodehelper/search_diff.go:403-410 | output without a boundary between records and patches is refused, unless it is blank and nothing is found |
| CommitEdit.CommitIndexes | apps/desktop/frontend/src/lib/commit-edit.ts:358-365 | an index of every id, exactly when the ids are distinct |
| CommitEdit.OldestAffectedOriginalIndex | apps/desktop/frontend/src/lib/commit-edit.ts:288-314 | the last original row moved or edited; none for a list that is no rearrangement and for an unchanged one |
| CommitEdit.DeriveRewriteStackDraft | apps/desktop/frontend/src/lib/commit-edit.ts:321-356 | the specified draft or the first reason that applies, which `FirstReasonDecides` gives |
| CommitEdit.AnchorIsExact | apps/desktop/frontend/src/lib/commit-edit.ts:288-356 | the visible head range of length j is accepted exactly when it reaches the anchor |
| CommitEdit.AcceptedIsPermutation | apps/desktop/frontend/src/lib/commit-edit.ts:321-356 | an accepted stack is a visible head range, the result a permutation of it in the order of the draft, and an unchanged draft gives the stack itself |
| CommitEdit.FirstReasonDecides | apps/desktop/frontend/src/lib/commit-edit.ts:321-356 | a draft is accepted exactly when no reason applies, and each reason is given exactly when it is the first that does |
| CommitEdit.AffectedMeans | apps/desktop/frontend/src/lib/commit-edit.ts:288-314 | the anchor is the last original row that moved or was edited |
| CommitEdit.MoveCommitTo | apps/desktop/frontend/src/lib/commit-edit.ts:114-124 | the row moves to just in front of the row at its insertion point, or to the end, and the others keep their order |
| CommitEdit.MoveSetsTheAnchor | apps/desktop/frontend/src/lib/commit-edit.ts:114-124 | after one move the anchor is the older of the two places |
| CommitEdit.ProjectVisualDraftToTargetChain | apps/desktop/frontend/src/lib/commit-edit.ts:232-282 | the specified projection or refusal |
| CommitEdit.ProjectionRearrangesTheChain | apps/desktop/frontend/src/lib/commit-edit.ts:232-282 | an accepted projection permutes exactly the visible part of the target chain, in the order of the draft, and keeps the invisible tail as it is; its last refusal cannot occur |
| CommitEdit.ProjectionDecides | apps/desktop/frontend/src/lib/commit-edit.ts:232-282 | a projection is accepted exactly when no reason applies, and each reason is given exactly when it is the first that does |
| CommitEdit.ValidateRewriteRange | internal/desktop/commit_rewrite.go:486-536 | the count and the set of seen commits accept permutations of base..head with usable commits, and nothing else; each refusal is given exactly when its test is the first to fail |
| CommitEdit.DerivedPassesTheBackend | internal/desktop/commit_rewrite.go:500-535 | what the edit page derives passes the backend's permutation test |
| SparsePlan.NormalizationKeepsCoverage | apps/desktop/frontend/src/lib/sparse-plan.ts:15-26 | normalising leaves no directory inside another and changes no coverage |
| SparsePlan.CoverageDecidesSelection | apps/desktop/frontend/src/lib/sparse-plan.ts:15-34 | selections without nested directories that cover the same are the same |
| SparsePlan.PlanReachesTheSelection | apps/desktop/frontend/src/lib/sparse-plan.ts:40-72 | for an enabled cone checkout with clean names, carrying out the planned action leaves exactly the coverage of the selection, in a cone checkout |
| SparsePlan.FirstPlanReachesTheSelection | apps/desktop/frontend/src/lib/sparse-plan.ts:40-44 | for a checkout that is not a sparse cone the plan sets the selection, and carrying it out leaves exactly its coverage |
| SparsePlan.PlanSaysWhatChanges | apps/desktop/frontend/src/lib/sparse-plan.ts:28-63 | the directories said to be added and removed are exactly those of one selection and not the other |
| SparsePlan.NormalizedPathIs | apps/desktop/frontend/src/lib/sparse-plan.ts:20-22 | a path is cut at its ends of slashes and white space |
| SparsePlan.ContractionKeepsTheRest | apps/desktop/frontend/src/lib/sparse-plan.ts:65-72 | the contract payload names reported directories, and removing them leaves the coverage of what stays |
| SparsePlan.NothingMeansCovered | apps/desktop/frontend/src/lib/sparse-plan.ts:46-50 | nothing is planned exactly when the checkout already covers what is asked for |
| SparsePlan.Checkout.SparseSet | internal/app/worktree.go:313-337 | replaces the directories, or refuses and changes nothing |
| SparsePlan.Checkout.SparseExpand | internal/app/worktree.go:339-359 | adds directories, or refuses and changes nothing |
| SparsePlan.Checkout.SparseContract | internal/app/worktree.go:361-391 | removes directories by exact name, or refuses and changes nothing |
| SparsePlan.Checkout.NormalizeSparseDirectories | internal/app/worktree.go:485-506 | each cleaned name once, or a refusal |
| SparsePlan.TidiedIs | internal/app/worktree.go:485-506 | the tidied list has each cleaned name once in the order of its first use, and is refused exactly when a name is |
| SparsePlan.SetIsRefused | internal/app/worktree.go:313-337 | exactly when setting is refused, and why |
| SparsePlan.ExpandIsRefused | internal/app/worktree.go:339-359 | exactly when expanding is refused, and why |
| SparsePlan.ContractIsRefused | internal/app/worktree.go:361-391 | exactly when contracting is refused, and why |

Where the code and what is expected of it differ, the code is modelled:

- `projectVisibleCommits` returns the history unprojected when the visible set has as many
  ids as the history has commits, even if the sets differ. `ProjectionListsVisible` states
  the exact condition and `HiddenCommitListed` an input. It takes an id that is not loaded:
  asked for loaded commits, as the commit table asks, the projection is right
  (`LoadedAreListed`).
- `commit-edit.ts` names a refusal `draft-target-chain-mismatch` that no input can produce
  (`ProjectionRearrangesTheChain`).
- A row may open and close a group of its own, so removing a row, or ungrouping two rows
  that belong to different groups, can unbalance a list. `RemovalKeepsBalance` and
  `UngroupingKeepsBalance` state exactly when they do not, `BalanceCanBeLost` gives inputs.
- `searchExpressionText` prints values without the quotes they may have been read in, so
  printing what was read can read as another list. `ReadingInvertsPrinting` is about values that
  need no quotes, `QuotesAreNotKept` gives an input.
- A quoted search value that holds a join in front of a word and a colon is refused, though the
  quotes are there to keep it together. `QuotedValuesAreRead` states exactly when,
  `QuotedValueCanBeRefused` gives an input.
- `selectExactFileDiff` has a refusal for a record without its path that no output can produce: an
  empty path is read in its place (`MissingPathIsNotReported`).
- `appendRange` adds a candidate that begins before the last range only from the start of that
  range on. `AppendRange` says so, and `EarlierLinesAreNotAdded` gives one; no diff whose hunks
  follow each other makes one.

## Left out

- Running Git, the file system, temporary worktrees and cherry-pick results: what a command finds and replies is an input of each step.
- JSON, SHA-256, base64 and regular expressions beyond the words of the search expression: given functions, or predicates.
- User interface: tooltips, row sizing, drag thresholds, SVG paths, badges, presets, bindings.
- Remote URL normalisation, review links, the project store and discovery: validation chains with no property over runs.
- `primaryBranchHead` and `historicalBranchContext`: reading ref names and merge messages; the default head is an input of the layout.
- The names of matching sources and the progress of a search: what is shown beside a match, not whether it matches.
- Wall-clock timeouts and fairness of the scheduler: proved are safety, quiescence, the absence of deadlock and that the steps of every call are finitely many.
- Parent contexts cancelled by a caller and panics: a cancelled parent is a step of the environment in `SwitchProtocol`, a panic is not modelled.
- Histories that are cyclic or list a parent before its child, diffs with blank context suppressed: excluded by preconditions.
- HistoryCache.Service.RefreshRefCache: the program shares one object per repository cache; here the cache is a value in the map, so aliasing is not captured.
- HistoryCache.Service.StorePersistent: writes without synchronisation that a crash would lose are not modelled; a restart keeps or wipes the whole store.
- HelperProtocol.SettlesByItsOwnCause: progress notifications are read and change no outcome; which receiver gets them is not modelled.
- HelperClient.ChunksDoNotShow: chunks that arrive after the client has stopped are not fed.
- CommitGraphLoops.BuildCommitGraph: the default head is an input, and the historical branch labels and tips returned beside the rows are not modelled.
- SearchScan.Search: the source names and diffs shown with each match, and progress reports, are not modelled.
- SparsePlan.Checkout.NormalizeSparseDirectories: cleaning and judging one name is a given function, and the final sort of the list is not captured.
- DiffRanges.ParseUnifiedRanges: lines arrive classified by their first characters; matching the hunk header against its pattern is not modelled.
- SparsePlan.PlanReachesTheSelection: the order of sorted lists is not captured; the probe for dirty paths is one yes-or-no input.
- SearchExpression.ParseSearchExpression: a host locale whose lower case of an ASCII letter is another than usual, such as the Turkish dotless i, is not modelled.
- WorktreeRemoval.ValidateTargets: paths are canonical already.
- RewriteInstall.NothingElseIsOverwritten: recovery refs have distinct names and no other process touches them.
