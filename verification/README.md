# Models of Click's verifier core

Click verifies C functions against sidecar specifications. These Dafny modules
model the self-contained algorithms under that verifier and prove what they are
relied on for. No logical kernel is modelled, only the structures and passes it
stands on.

| files | subject |
|---|---|
| `AvlTree`, `SortedEntries`, `Ordering`, `Sequences`, `Sets` | rotation algebra, search trees, sorted entry lists |
| `PersistentMap`, `PersistentIter` | the shared persistent map: copy-on-write updates, the double-ended iterator |
| `DiffStacks`, `DiffTurns`, `DiffMerge`, `PersistentDiff` | the diff that skips shared subtrees, against a merge that skips nothing |
| `DiffNodes`, `DiffSets`, `DiffCosts`, `DiffUpdates`, `DerivedDiffs` | what that diff costs, and costs of maps derived from one base |
| `Selectors`, `LoopLabels`, `Snapshots`, `Deadlines`, `SnapshotWalks` | recorded snapshots: loop labels, tombstones, the change log, bounded walks |
| `SnapshotMerge`, `MergesAstray` | the branch merge, and the proofs that lead it astray |
| `Syntax`, `MemoryIndependence`, `SyntaxParts`, `CallReach`, `CallGraph`, `BackwardPropagation`, `CallPropagation` | the specification syntax with a meaning, and the classifier of functions that cannot read C memory |
| `PropositionClone`, `BoolValues` | copying a proposition without recursion; connectives as nested conditionals |
| `Machine`, `WorkBudgets`, `WorkRuns`, `WorkReports`, `WorkExecution`, `RunVerdicts` | deterministic work budgets, well-bracketed runs over them, the command line's verdict |
| `Arena`, `ArenaMethods` | the first-fit arena example: whole runs, and the operations in 32-bit arithmetic |
| `ImportGraph`, `ImportVisit`, `ImportFields`, `ImportLoader`, `ImportOrder` | import loading: when a project loads, and the loader's fields |
| `WorkerPool`, `ShellQuote` | the worker pool, shell quoting |
| `EditDistance` | the distance that ranks name suggestions |

How the parts are modelled:

- A shared reference is an object whose fields are constants, with the tree it
  stands for as ghost state: one object is one content, which is what makes
  skipping it sound. Values are compared as the source does, by identity or by
  the caller's equality, so nothing assumes that equality to be reflexive.
- Keys come with a strict total order, as the source's `Ord` promises.
- A machine word is `USize`, bounded by 2^64 - 1, with saturating arithmetic
  where the source saturates. The arena's integers are 32 bits wide.
- The clock never appears: what each check of a deadline finds is an input, as is
  each outcome of `malloc`.
- Expressions and propositions are given a meaning in which every construct the
  scan calls memory-reading may depend on the whole memory in any way, and every
  other construct sees only the values below it.
- The import loader works on an abstract project: what a path resolves to, what
  lies in the root, what a file holds, what a text imports. What its walk
  finishes and reports is a function of the project, the modules open and the
  modules done; the loader's methods are shown to compute that function.

Where the code differs from what a reader may expect of it, the model follows
the code:

- `recent` tests its limit only after taking a point, so a limit of zero would
  yield one point (`SnapshotWalks.Recent`). Its callers pass positive limits.
- A merge keeps what both arms record alike, and nothing else, when their loop
  labels are equal. When they differ anywhere it takes the ancestor's labels and
  visits changed spellings only, so a point goes astray that an arm has respelled
  since the fork and neither arm has changed under its former spelling: it stays
  as the ancestor recorded it. All is well exactly when the ancestor recorded
  there what both arms do (`SnapshotMerges.CommonDescendant`). Otherwise a record
  is lost (`MergesAstray.LabelledApart`, `MergesAstray.LabelledBesides`) or a
  stale one kept (`MergesAstray.LabelledLate`). A branch is what the operations
  leave of a copy of the ancestor (`Snapshots.BranchesThrough`).
- The limit on opening connectives counts visits, not the size of the result: a
  branch repeated under `or` or `implies` is not counted again
  (`BoolValues.RefusedExactlyPastTheLimit`).
- A tactic already exhausted is no longer charged, so a run budget equals
  exclusive tactic work plus work outside tactics only with the work of exhausted
  tactics added as a third part (`WorkRuns.RunBudgetAccounts`): without it, exactly
  when that part is zero (`WorkRuns.TwoPartsExactlyWhen`), which it need not be
  (`WorkRuns.OverworkedIsApart`).
- A tactic past its limit is reported through a pending limit. A scope of limits
  that closes inside the tactic forgets it, so a checkpoint in a tactic nested
  after that reports nothing (`WorkReports.ForgottenIsNotReported`); without such
  a scope, and wherever the tactic itself is innermost, every later checkpoint
  reports it (`WorkReports.OverworkIsReportedInside`,
  `WorkReports.OverworkIsReported`).
- The chain limit of the loader bounds the depth of its walk, not the chains of
  the project. Of all walks from the entry to a module only the first counts,
  the one that always takes the earliest import leading there
  (`ImportVisit.LoadsExactlyWhen`), so the order in which imports are written
  decides whether a project with a longer chain is refused
  (`ImportOrder.OrderDecides`).
- Decision fuel is spent by every charge and also, without any charge, by
  walks that burn it directly, so it falls faster than any budget grows
  (`WorkRuns.RunGrows`).

## Model

| member | source | states |
|---|---|---|
| `AvlTree.BalanceEntries` | src/persistent.rs:581-648 | rebalancing, in every arm, keeps the entries and their order |
| `AvlTree.BalanceRepairs` | src/persistent.rs:581-648 | one rebalancing of two balanced sides at most two apart gives a balanced tree, and a side two higher keeps its height exactly when its own children differ in height |
| `AvlTree.InsertEntries` | src/persistent.rs:650-689 | insertion is insertion into the sorted entry list |
| `AvlTree.InsertMeansUpdate` | src/persistent.rs:650-689 | insertion keeps the search order and means map update; its flag tells whether the key was absent |
| `AvlTree.InsertBalanced` | src/persistent.rs:650-689 | insertion keeps exact heights and balance, and raises the height by at most one, only through children of different heights |
| `AvlTree.InsertRotatesOnce` | src/persistent.rs:581-689 | an insertion rotates at most once, a rotation leaving the former height, and makes at most height + 1 nodes, two more when it rotates |
| `AvlTree.RemoveEntries` | src/persistent.rs:691-771 | removal is removal from the sorted entry list, and the identity on the tree when the key is absent |
| `AvlTree.RemoveMeansRemoval` | src/persistent.rs:691-771 | removal keeps the search order and means map removal; its flag tells whether the key was present |
| `AvlTree.RemoveBalanced` | src/persistent.rs:691-771 | removal keeps exact heights and balance, lowers the height by at most one, makes at most 3 x height nodes, and none when it finds nothing |
| `AvlTree.HeightNeedsEntries` | src/persistent.rs:577-648 | a balanced tree of height h holds at least Fib(h + 2) - 1 entries |
| `AvlTree.HeightIsLogarithmic` | src/persistent.rs:20-34 | so 2^(height / 2) is at most the number of entries plus one |
| `AvlTree.HeightIsAtMost` | src/persistent.rs:20-34 | no balanced tree of up to n entries is higher than 2 x log2(n + 1) + 1 |
| `AvlTree.Log2OfPow2` | src/persistent.rs:20-34 | that logarithm is exactly the greatest power of two not above its argument |
| `AvlTree.HeightFitsAByte` | src/persistent.rs:28-34 | a tree whose size fits 64 bits has a height below 256, so neither `u16` nor `u8` heights wrap |
| `AvlTree.InsertKeepsAvl` | src/persistent.rs:124-135 | insertion keeps the whole invariant, size included, and makes at most height + 3 nodes |
| `AvlTree.RemoveKeepsAvl` | src/persistent.rs:137-147 | removal keeps the whole invariant, size included, and makes at most 3 x height nodes |
| `AvlTree.ReachableMapAgrees` | src/persistent.rs:20-147 | after every sequence of inserts and removes the tree is a balanced search tree equal to the plain map the same updates give, and the tracked length is exact |
| `PersistentMaps.MakeNode` | src/persistent.rs:773-789 | a new node caches one more than the greater child height; exactly one node is made |
| `PersistentMaps.BalanceNode` | src/persistent.rs:581-648 | the node built over shared children stands for the rebalanced tree, with the exact count of nodes made; no more nodes than that are not in the map it was given |
| `PersistentMaps.InsertNode` | src/persistent.rs:650-689 | copy-on-write insertion stands for insertion on trees, with the exact count of nodes made; no more nodes than that are not in the map it was given |
| `PersistentMaps.RemoveLeftmostNode` | src/persistent.rs:691-713 | taking the leftmost entry stands for the same on trees; no more nodes than that are not in the map it was given |
| `PersistentMaps.RemoveNode` | src/persistent.rs:715-771 | copy-on-write removal stands for removal on trees, and returns the identical node when nothing was removed; no more nodes than that are not in the map it was given |
| `PersistentMaps.PersistentMap.WithInserted` | src/persistent.rs:124-131 | the new map binds the key and agrees elsewhere by reference; its `len` is exact; at most height + 3 nodes are made, all others being the old map's, the height being logarithmic in the length |
| `PersistentMaps.PersistentMap.WithoutKey` | src/persistent.rs:141-147 | the new map lacks the key and agrees elsewhere; an absent key returns the identical root and makes no node; at most 3 x height nodes are made, all others being the old map's |
| `PersistentMaps.PersistentMap.Insert` | src/persistent.rs:133-135 | the map in place becomes its update, nothing an older clone holds being written |
| `PersistentMaps.PersistentMap.Remove` | src/persistent.rs:137-139 | the map in place loses the key; its root is the same object when the key was absent |
| `PersistentMaps.PersistentMap.Get` | src/persistent.rs:51-65 | lookup answers what the plain map answers |
| `PersistentMaps.PersistentMap.GetLessThan` | src/persistent.rs:91-105 | the result is the entry of the greatest key strictly below, and none exactly when there is no such key |
| `PersistentMaps.PersistentMap.GetGreaterThan` | src/persistent.rs:108-122 | the result is the entry of the least key strictly above, and none exactly when there is no such key |
| `PersistentMaps.PersistentMap.SharesRootWith` | src/persistent.rs:176-182 | true exactly when both maps hold one root object |
| `DiffMerge.MergeAscends` | src/persistent.rs:188-295 | the merge of two sorted entry lists reports keys in strictly ascending order |
| `DiffMerge.MergeReports` | src/persistent.rs:188-295 | a key is reported exactly when one map alone binds it, or both do, to different objects whose values do not compare equal |
| `DiffMerge.MergeValues` | src/persistent.rs:188-295 | a change carries what each side binds its key to |
| `DiffMerge.MergeSkipsShared` | src/persistent.rs:240-262 | dropping one shared stretch from the front of both sides changes no report |
| `DiffMerge.MergeIsExact` | src/persistent.rs:188-295 | the merge is exactly those keys, once each, ascending, with both values |
| `DiffMerge.ExactInValue` | src/persistent.rs:263-293 | where the comparison decides equality, the keys reported are exactly those whose values differ, whichever objects hold them |
| `DiffMerge.AgreeInValue` | src/persistent.rs:322-329 | where the comparison decides equality, the maps agree exactly when they bind the same keys to equal values |
| `DiffStacks.ExpandKeeps` | src/persistent.rs:215-227 | opening the subtree on top of a stack leaves what is still to visit, and less work |
| `PersistentDiffs.PersistentMapDiff.Next` | src/persistent.rs:229-295 | each call yields the next remaining change, none once none is left, on maps of any shapes and sharing, and terminates; at the end the subtrees opened are those counted for the walk |
| `DiffMerge.OpeningKeeps` | src/persistent.rs:234-262 | a turn that skips a subtree held by both sides, or opens the taller one, loses no remaining change and reports none |
| `PersistentDiffs.PersistentMapDiff.OpenOrSkip` | src/persistent.rs:234-262 | the stacks become those of the one turn that skips the shared subtree or opens the taller one, both when of one height; the remaining changes stay |
| `DiffTurns.TurnLightens` | src/persistent.rs:229-295 | every turn of the walk leaves less to do |
| `DiffTurns.TurnCounts` | src/persistent.rs:215-227 | a turn counts one for each subtree it opens, as many as the entries it puts on the stacks, and nothing at entries |
| `DiffNodes.ExpandOpensOne` | src/persistent.rs:215-227 | opening a subtree opens exactly its root, keeps the order of the nodes ahead, and lowers the top of the stack |
| `DiffCosts.WaitingPays` | src/persistent.rs:251-262 | opening a shared subtree that waits on a smaller key spends a level of that key, which one map alone binds |
| `DiffCosts.MeetingPays` | src/persistent.rs:249-262 | opening a shared subtree at the other side's first entry makes up for its opening there |
| `DiffCosts.TurnPays` | src/persistent.rs:229-295 | no turn opens more subtrees than it lowers what the walk may still cost |
| `DiffCosts.OpeningsAreBounded` | src/persistent.rs:188-203 | over two maps of any shapes and sharing the walk opens at most one subtree for each node that only one of them holds and 2 x height for each key that only one of them binds, however large the shared part |
| `DiffCosts.OpeningsAtMost` | src/persistent.rs:188-203 | the same bound written out, for any bound on the two heights |
| `DiffUpdates.NodesApart` | src/persistent.rs:20-34 | two maps, the second with some nodes made anew, leave unshared at most twice those and the entries removed |
| `DiffUpdates.NearIsCheap` | src/persistent.rs:188-203 | two maps k updates apart are diffed by opening at most k x (8 x height + 6) subtrees |
| `DiffUpdates.ChangedPathsMultiply` | src/persistent.rs:188-203 | the bound on k changed paths is k x (8 x height + 6) |
| `DerivedDiffs.Apply` | src/persistent.rs:124-147 | a map after one update shares with the map before it all nodes but 6 x height + 6, and binds the same keys but one |
| `DerivedDiffs.Derive` | src/persistent.rs:188-195 | a map after k updates agrees with the plain map after them and shares all but k changed paths with the map before them |
| `DerivedDiffs.DiffOfDerived` | src/persistent.rs:188-203 | maps derived from one base by k updates in all are diffed exactly, the keys reported being those the plain maps bind differently where the comparison decides equality, and opening at most k x (8 x height + 6) subtrees, the height being that of a map with the base's entries and k more |
| `PersistentDiffs.PersistentMapDiff.TakeEntries` | src/persistent.rs:263-293 | at two entries the lesser key, or one key held by different objects with values that do not compare equal, is the next change; the stacks lose just the entries taken |
| `PersistentDiffs.Diff` | src/persistent.rs:188-203 | the whole walk yields, ascending and once each, the keys bound in one map alone and those bound to different objects whose values do not compare equal, with both sides' values; where the comparison decides equality, exactly the keys whose values differ; it opens at most one subtree for each node not in both maps and 2 x height for each key bound in only one |
| `DiffMerge.AgreeIffNothingReported` | src/persistent.rs:322-329 | nothing is reported exactly when the maps bind the same keys to values that count as equal, and then they have one length |
| `PersistentDiffs.Equal` | src/persistent.rs:322-329 | the answer is true exactly when the maps bind the same keys, each to one object or to values that compare equal; where the comparison decides equality, exactly when the maps are equal in keys and values |
| `PersistentIters.PushFront` | src/persistent.rs:387-392 | pushing a left spine puts exactly that subtree's entries before what the front has left |
| `PersistentIters.PushBack` | src/persistent.rs:394-399 | pushing a right spine puts exactly that subtree's entries after what the back has left |
| `PersistentIters.PersistentMapIter.Next` | src/persistent.rs:402-413 | the front yields the first entry of those left, or nothing once the count is zero |
| `PersistentIters.PersistentMapIter.NextBack` | src/persistent.rs:420-430 | the back yields the last entry of those left, or nothing once the count is zero |
| `PersistentIters.Interleave` | src/persistent.rs:366-432 | for any interleaving the front items, one for each choice of the front that finds an entry left, are a prefix of the sorted entries, and the back items a reversed suffix; with steps enough they cover every entry exactly once |
| `PersistentIters.OwnedSetValues.Next` | src/persistent.rs:511-529 | the owning walk yields the keys of the root it was given in ascending order |
| `Selectors.SelectorOrder` | src/surface.rs:5464-5576 | the derived order of snapshot selectors is a strict total order |
| `Selectors.StringLessIs` | src/surface.rs:5464-5576 | names go by their first differing character, a proper beginning first |
| `Selectors.RegionLessIs` | src/surface.rs:5464-5576 | regions of one kind go by index or name, and the kinds as declared |
| `Selectors.SelectorLessIs` | src/surface.rs:5464-5576 | points go by region, an entry before its exit, and every mark comes after every point |
| `Snapshots.SnapshotInsertIsInsert` | src/surface.rs:3581-3614 | insertion into the snapshot tree is insertion into the persistent map's tree |
| `Snapshots.SnapshotInsertKeeps` | src/surface.rs:3500-3614 | recording a state binds its point and recording a tombstone unbinds it, in a balanced search tree |
| `Snapshots.UnchangedSince` | src/surface.rs:2998-3005 | between a log and one it extends, points not named by the changes between are bound alike |
| `Snapshots.RecordedSnapshots.GetExact` | src/surface.rs:3199-3213 | lookup answers the recorded state, and none for a point absent or removed |
| `LoopLabels.SpellingIsCanonical` | src/surface.rs:3127-3154 | the spelling a point is recorded under is recorded under itself |
| `LoopLabels.SpellingIs` | src/surface.rs:3127-3154 | a point of a loop, named by its index or by a label, is spelled with the first label the loop was given, every other point as it is |
| `LoopLabels.LabelledIs` | src/surface.rs:3156-3176 | a label names its loop, all other labels stay, and a loop's first label stays first |
| `LoopLabels.LabelRespells` | src/surface.rs:3130-3197 | a new label changes the spelling of its own points, and of its loop's points when it is the loop's first label, and of no others |
| `Snapshots.RecordedSnapshots.Get` | src/surface.rs:3119-3126 | a point is looked up by any of its spellings |
| `Snapshots.RecordedSnapshots.LabelLoop` | src/surface.rs:3157-3197 | the label names the loop; the first label of a loop moves what is recorded at its entry and exit to the label's spelling and logs exactly both spellings of each, a later label logs nothing; every logged point had that spelling before |
| `LoopLabels.CanonicalBefore` | src/surface.rs:3127-3197 | labels only grow: a spelling recorded under now was recorded under before |
| `LoopLabels.SpellingOnward` | src/surface.rs:3127-3197 | respelling a point by earlier labels first makes no difference |
| `Snapshots.BranchesThrough` | src/surface.rs:2998-3005 | a branch of a branch is a branch: labels and log have grown, and each change was logged under the spelling its point had at the fork |
| `Snapshots.LabelKeepsRecords` | src/surface.rs:3157-3197 | after labelling a loop each of its points records what it did before under its new spelling, or, where the loop had nothing recorded, what was bound under that very spelling; every other point is as before |
| `Snapshots.LabelKeepsCanonical` | src/surface.rs:3157-3197 | a label first used now leaves every point bound only under the spelling it is recorded under |
| `Snapshots.RecordedSnapshots.Insert` | src/surface.rs:3215-3231 | recording binds the spelling of the point, returns its prior state, adds one change to the log, and leaves a branch |
| `Snapshots.RecordedSnapshots.Remove` | src/surface.rs:3260-3278 | removal unbinds the spelling of the point, returns its prior state, keeps the very version when it was not bound, and leaves a branch |
| `SnapshotMerges.ChangedKeysSince` | src/surface.rs:3287-3307 | walking a log back finds the ancestor exactly when the log extends it, and collects exactly the points changed since |
| `SnapshotMerges.CommonDescendant` | src/surface.rs:3286-3335 | the merge gives a result exactly when both logs extend the ancestor's in its family; of two branches it records at each point what both arms record alike if their labels are equal or the point changed under its spelling at the fork, and what the ancestor recorded otherwise; it records exactly what both arms do everywhere if and only if no point has gone astray with the ancestor recording something else there; the result is a branch again |
| `SnapshotMerges.MergeIsExactly` | src/surface.rs:3311-3335 | keeping all that both arms record alike and nothing else is equivalent to a condition on ancestor and arms before the merge: at every point an arm has respelled since the fork and neither has changed under its former spelling, the ancestor records what both arms record alike |
| `SnapshotMerges.MergeOnlyLoses` | src/surface.rs:3311-3335 | where the ancestor recorded nothing at such a point the merge can only lose a record, and loses it exactly there |
| `MergesAstray.LabelledApart` | src/surface.rs:3286-3335 | run to its end: arms that label one loop differently and record one state there merge to no record of it |
| `MergesAstray.LabelledBesides` | src/surface.rs:3286-3335 | run to its end: arms that label a loop alike and record one state there merge to no record of it when one of them labels another loop besides |
| `MergesAstray.LabelledLate` | src/surface.rs:3286-3335 | run to its end: a label recorded at before it names a loop already labelled leaves a record one arm no longer has |
| `SnapshotWalks.WalkLists` | src/surface.rs:3038-3112 | an uninterrupted bounded walk lists exactly the points recorded within the bounds, once each, in order, either way |
| `SnapshotWalks.SeekSkips` | src/surface.rs:3064-3085 | off the bounds a node and one whole side of it hold nothing to yield |
| `SnapshotWalks.Seek` | src/surface.rs:3064-3085 | descending leaves on the stack exactly what the subtree and the stack had yet to yield, and stops exactly when one of its checks finds the deadline expired |
| `SnapshotWalks.RecordedSnapshotRange.Next` | src/surface.rs:3087-3112 | each call yields the next recorded point, tombstones passed over, none at the end; it is stopped exactly when a check of the deadline has found it expired, and for good |
| `SnapshotWalks.Drain` | src/surface.rs:3087-3112 | a drained walk yields all that remained unless a check found the deadline expired, and then a prefix of it |
| `SnapshotWalks.NearestFromListings` | src/surface.rs:3365-3393 | the two bounded walks together hold every statement entry, each on its own side of the anchor |
| `SnapshotWalks.StatementEntriesNearest` | src/surface.rs:3365-3393 | unless a check finds the deadline expired, every recorded statement entry comes exactly once: those at or before the anchor descending, then the rest ascending |
| `SnapshotWalks.NewestDistinct` | src/surface.rs:3397-3413 | reading the log newest first reports no point twice |
| `SnapshotWalks.NewestFirst` | src/surface.rs:3397-3413 | the points come in the order of their latest changes, newest first |
| `SnapshotWalks.NewestIsComplete` | src/surface.rs:3397-3413 | read to its end the log lists exactly the points bound now, under the spelling each is recorded under, with their states |
| `SnapshotWalks.Recent` | src/surface.rs:3397-3413 | the newest logged points still recorded, as many as the limit says, or one when the limit is zero; no more than the limit exactly when it is positive or nothing is recorded |
| `MemoryIndependence.EvalIndependent` | src/surface.rs:6028-6138 | an expression the scan finds clean, calling only kept functions, has one value under any two memories, at any call depth |
| `MemoryIndependence.HoldsIndependent` | src/surface.rs:6140-6181 | a proposition the scan finds clean, calling only kept functions, has one truth value under any two memories |
| `SyntaxParts.ExpressionFinds` | src/surface.rs:6028-6138 | the scan of an expression observes memory exactly when some part of it, anywhere inside, is one of the listed reading constructs, and otherwise names exactly the calls written in it, in order |
| `SyntaxParts.PropositionFinds` | src/surface.rs:6140-6181 | the same of a proposition |
| `SyntaxParts.ReadersObserve` | src/surface.rs:6061-6079 | each listed construct may take any value at all in a memory, and so may a call of what is not declared |
| `SyntaxParts.SourceNameCuts` | src/surface.rs:5970-5978 | the name looked up is all that stands before the first `::<` |
| `BackwardPropagation.Propagate` | src/surface.rs:6005-6025 | the worklist keeps exactly the candidates from which no bad node is reached, looking at each edge at most as often as it is listed |
| `CallPropagation.Classify` | src/surface.rs:5986-6004 | the first pass splits declared functions into those some part of whose body reads memory or that call an undeclared name, and the others, and lists each of the others under a callee exactly as often as it calls it |
| `CallPropagation.MemoryIndependentFunctions` | src/surface.rs:5986-6026 | what is kept is exactly the declared functions from which no chain of calls leads to a body with a part that reads memory or a call of an undeclared name; each call written is looked at no more than once |
| `CallPropagation.LeadsExactly` | src/surface.rs:6005-6025 | it makes no difference that the propagation stops at the first dependent function of a chain |
| `CallPropagation.KeptIsIndependent` | src/surface.rs:5956-6026 | a kept function has one value under any two memories, for every call depth and all arguments |
| `PropositionClone.VisitFrame` | src/surface.rs:2186-2398 | one visit leaves a state that still ends in the same single result, and one structural node fewer to visit |
| `PropositionClone.CloneIteratively` | src/surface.rs:2186-2398 | the copy terminates, never pops an empty stack, returns a proposition equal to its input, and visits each structural node once |
| `BoolValues.BranchCounts` | src/surface.rs:2144-2176 | opening a connective counts one visit a node of its tree, and is refused exactly when the count passes 256 |
| `BoolValues.ShortcutIsForTrue` | src/surface.rs:2105-2142 | the shortcut is taken exactly for `value == c` where c is the constant 1 of `bool` |
| `BoolValues.RefusedExactlyPastTheLimit` | src/surface.rs:2138-2184 | apart from that shortcut a proposition is refused exactly when its connective tree has more than 256 nodes |
| `BoolValues.BranchSelects` | src/surface.rs:2144-2176 | the conditionals select the branch the proposition's truth selects, under every valuation |
| `BoolValues.BranchTests` | src/surface.rs:2144-2176 | the conditionals test the atoms in the order of left-to-right short-circuit evaluation |
| `BoolValues.BoolValueDecides` | src/surface.rs:2138-2184 | the translation selects the constant 1 of `bool` if the proposition is true and 0 if it is false, after the same tests in the same order |
| `BoolValues.BoolValueMeans` | src/surface.rs:2132-2184 | evaluated in any memory and environment, the translation has the value of the constant 1 if the proposition holds and of 0 if not, exactly when the shortcut was not taken or its left side has one of those two values |
| `WorkBudgets.Instrumentation.ChargeTacticWork` | src/instrumentation.rs:713-778 | only the innermost tactic is charged; the first excess exhausts it and leaves a pending limit |
| `WorkBudgets.Instrumentation.ChargeRunWork` | src/instrumentation.rs:514-547 | every open run budget is charged; the first excess leaves a pending limit unless one is pending |
| `WorkBudgets.Instrumentation.ChargeDeterministicWork` | src/instrumentation.rs:697-711 | a charge spends decision fuel, adds to every counter, and charges tactic and run budgets |
| `WorkBudgets.CheckpointReports` | src/instrumentation.rs:957-974 | a checkpoint reports exactly when the wall-clock bound has expired, a limit is pending, or with its units a run budget or the innermost tactic is past its limit or the decision fuel is spent |
| `WorkBudgets.Instrumentation.DeadlineExceededWithWork` | src/instrumentation.rs:957-974 | a checkpoint charges, and reports exactly in those cases |
| `WorkBudgets.Instrumentation.RecordDeterministicWork` | src/instrumentation.rs:581-601 | recording charges, except while uncharged or in an exhausted collection, where a record is a checkpoint, and nothing changes while uncharged or in an exhausted collection |
| `WorkBudgets.Instrumentation.StartTactic` | src/instrumentation.rs:1320-1337 | starting a tactic pushes it with the installed limit of its class: the simple, smart or control limit of the limits installed last, none for other classes or without any |
| `WorkBudgets.Instrumentation.EndTactic` | src/instrumentation.rs:1338-1368 | ending a tactic removes the last entry of that event and samples its exclusive work |
| `WorkBudgets.Instrumentation.EndRun` | src/instrumentation.rs:434-447 | closing a run budget clears a pending run limit unless an enclosing budget is exhausted |
| `WorkRuns.RunGrows` | src/instrumentation.rs:697-711 | over every well-bracketed run each open run budget and counter moves by exactly the units charged, saturating, and open fuel by those and the units burned without charging |
| `WorkRuns.RunConserves` | src/instrumentation.rs:713-778 | over every run the exclusive work of tactics grows by no more than the units charged to tactics, and by exactly those unless a counter saturates |
| `WorkRuns.RunBudgetAccounts` | src/instrumentation.rs:456-466 | at the end of its scope a run budget has used the units charged inside, capped; they are those of tactics, those outside tactics, and those of tactics past their exhaustion, the tactics' part being their exclusive work |
| `WorkRuns.TwoPartsExactlyWhen` | src/instrumentation.rs:713-778 | short of saturation a run budget has used the tactics' exclusive work and the work outside tactics exactly when no tactic was charged past its exhaustion |
| `WorkRuns.OverworkedIsApart` | src/instrumentation.rs:713-778 | a tactic that works past its limit and then once more: its last work is used by the run budget and in neither of the other parts |
| `WorkRuns.NestedTacticIsExclusive` | src/instrumentation.rs:713-778 | the work of a nested tactic leaves the tactics around it as they were |
| `WorkReports.ExhaustionIsSticky` | src/instrumentation.rs:514-547 | once a run budget is past its limit every later checkpoint in its scope reports it |
| `WorkReports.SpentFuelIsSticky` | src/instrumentation.rs:889-918 | once a decision's fuel is spent, by charges or by burning, every later checkpoint inside it reports an interruption |
| `WorkReports.SawIn` | src/instrumentation.rs:957-974 | every checkpoint of a run reports exactly when the wall clock has expired, some run budget open around it has been charged past its limit, a limit is pending, or the fuel is spent; an innermost tactic past its limit leaves a limit pending |
| `WorkReports.RunTops` | src/instrumentation.rs:713-778 | over any run the innermost tactic is exhausted exactly when what was charged while it was innermost passes its limit, and has counted it until then |
| `WorkReports.OverworkIsReported` | src/instrumentation.rs:713-778 | a tactic charged past its class limit is reported at every later checkpoint made while it is innermost |
| `WorkReports.OverworkIsReportedInside` | src/instrumentation.rs:713-778 | and at every later checkpoint inside it, as long as no scope of limits or of a run budget opens inside it |
| `WorkReports.ForgottenIsNotReported` | src/instrumentation.rs:378-385 | a scope of limits that closes inside it forgets the pending limit, and a checkpoint in a tactic nested after it reports nothing |
| `WorkReports.QuietWithin` | src/instrumentation.rs:957-974 | a run charged within every limit open, with none pending before, reports nothing but the wall clock |
| `WorkReports.WorkIsCharged` | src/instrumentation.rs:581-601 | work is charged unless it is uncharged or inside a collection already exhausted |
| `WorkReports.UnchargedWorkIsFree` | src/instrumentation.rs:556-565 | work recorded where nothing is charged leaves every budget as it was |
| `WorkReports.CollectionExhausts` | src/instrumentation.rs:581-601 | a record exhausts a checked collection, and nothing else, exactly by finding a limit reached, spent fuel excepted |
| `WorkReports.FirstLimitPends` | src/instrumentation.rs:514-548 | a charge leaves pending the first limit that fired: one pending before, else the innermost tactic's past its limit, else a run budget's first past its own |
| `WorkReports.CollectionStarts` | src/instrumentation.rs:1089-1117 | the outermost checked collection starts unexhausted, one inside shares the exhaustion around it |
| `WorkReports.TacticIsSampled` | src/instrumentation.rs:1338-1368 | a tactic that ends is sampled with its event, its outcome and, short of its limit, exactly the units charged in it alone |
| `WorkReports.EndForgets` | src/instrumentation.rs:434-447 | closing a run budget forgets a pending run limit exactly when no budget around it is exhausted, and no other limit |
| `WorkReports.LastIndexIsLast` | src/instrumentation.rs:1338-1350 | an event that ends is that of the last tactic started with it |
| `WorkRuns.MeasuredExactly` | src/instrumentation.rs:928-933 | a measurement counts exactly the units charged inside it |
| `Machine.SixtyFourBits` | src/instrumentation.rs:697-711 | counters are 64 bits wide and stop at either end |
| `WorkRuns.RunKeepsPending` | src/instrumentation.rs:434-447 | a pending run limit always has an exhausted budget still open |
| `WorkRuns.ExhaustionIsExact` | src/instrumentation.rs:476-484 | at the end of its scope a budget is found exhausted exactly when more than its limit was charged, with the units and the limit |
| `WorkExecution.Execute` | src/instrumentation.rs:406-933 | any well-bracketed run carried out on the cells, scopes nested in any way, leaves them as the run's function says, its checkpoints having reported as it says |
| `RunVerdicts.ReportNamesTheBudget` | src/cli.rs:583-609 | an exhausted run fails with a message that names the whole-run budget, whatever the operation returned |
| `RunVerdicts.ReportTellsAll` | src/cli.rs:583-609 | a message not reporting it yet is replaced by one that tells the units used and allowed and ends in the advice, or in the failure with its introduction |
| `RunVerdicts.NumbersRead` | src/cli.rs:603-605 | the numerals of that message read as the units used and the limit |
| `RunVerdicts.NeverGreenPastTheBudget` | src/cli.rs:439-458 | a run is green exactly when its operation was and it spent no more than its budget; within it the outcome is the operation's own; past it the message names the budget; a failure after the wall clock stopped the run says that first and keeps the message |
| `ArenaMethods.ArenaInit` | examples/arena/arena_init.c:8-46 | initialisation succeeds exactly on a capacity of 1 to 536870911 with both allocations granted, and leaves an arena with nothing occupied; failure leaves an empty one |
| `ArenaMethods.Scan` | examples/arena/arena_alloc.c:27-36 | the scan finds a full run exactly when some such run of free cells exists, and then the leftmost |
| `ArenaMethods.ArenaAlloc` | examples/arena/arena_alloc.c:14-55 | allocation succeeds exactly when the count is positive and that many consecutive cells are free, takes the leftmost such run, marks exactly its cells, and otherwise changes nothing |
| `ArenaMethods.ArenaFree` | examples/arena/arena_free.c:14-25 | freeing a live region clears exactly its cells and lowers the live count |
| `ArenaMethods.ArenaWrite` | examples/arena/arena_write.c:14-19 | an in-region write changes exactly one cell of the data |
| `ArenaMethods.ArenaRead` | examples/arena/arena_read.c:14-19 | an in-region read returns the cell, and so the last value written there |
| `ArenaModel.RunKeeps` | examples/arena/arena_alloc.c:14-55 | in every state of every run live regions are in bounds and disjoint, a cell is occupied exactly when one covers it, and the live count is their number |
| `ArenaModel.ReadsLastWrite` | examples/arena/arena_read.c:14-19 | in every run a read through a live region returns the last value written through it since its allocation, whatever is done through the others |
| `ArenaModel.LiveCountFits` | examples/arena/arena_alloc.c:53 | the live count is never negative and never near the end of an int32 |
| `ArenaModel.AllocIsIsolated` | examples/arena/arena_alloc.c:20-54 | an allocation leaves every live region, all data and all written values alone, and succeeds exactly when a run is free |
| `ArenaModel.StepHasOneOutcome` | examples/arena/arena_alloc.c:20-54 | a step of a run has one outcome: the run of cells an allocation takes is the only one it could |
| `ImportGraph.ImportsAreEdges` | src/cli.rs:1177-1230 | the imports recorded of a module are exactly the modules its written imports resolve to |
| `ImportGraph.ImportExactly` | src/cli.rs:1181-1223 | an import resolves to a path exactly when the project resolves it there, it lies in the root, ends in `.click` and can be read; otherwise it is refused for the first of these that fails |
| `ImportGraph.ImportsInOrder` | src/cli.rs:1177-1230 | the imports of a module are recorded exactly when its text scans and each resolves, one for each written, in that order |
| `ImportGraph.FirstWalkIsFirst` | src/cli.rs:1181-1226 | a walk that always takes the first import leading to a module comes first, by the imports taken, of all walks from the entry to it |
| `ImportGraph.FirstWalkIsUnique` | src/cli.rs:1181-1226 | a module has at most one first walk |
| `ImportFields.OpensFit` | src/cli.rs:1164-1165 | opening a module keeps the loader's fields fitting together: colours tell the open and the done apart, imports are recorded of the done, every text held is the file's, each module met was opened once |
| `ImportFields.ClosesFit` | src/cli.rs:1227-1232 | closing a module keeps the same, its imports recorded and its colour changed |
| `ImportVisit.CycleIsGenuine` | src/cli.rs:1131-1155 | the modules a cycle error is cut from do import one another in a circle, and are reachable |
| `ImportVisit.ChainIsGenuine` | src/cli.rs:1158-1163 | a chain error has a chain of 257 distinct modules from the entry behind it |
| `ImportVisit.VisitIsSound` | src/cli.rs:1122-1234 | at every point of the walk: what is done is closed under imports, reachable and free of circles, nothing open is done, and an error reports something the project contains |
| `ImportVisit.VisitIsFirst` | src/cli.rs:1122-1234 | each module is first met with its first walk on the stack, so a finished one has a first walk within the limit and a refused one has a first walk past it |
| `ImportVisit.LoadsExactlyWhen` | src/cli.rs:1122-1234 | loading succeeds exactly when the entry lies in the root, every reachable module scans and each import it writes resolves to a readable `.click` file in the root, none reaches itself, and no first walk is longer than 256 modules |
| `ImportVisit.ChainRefusedExactlyWhen` | src/cli.rs:1158-1163 | where nothing else is wrong, loading fails for chain length exactly when some first walk is longer than 256 modules |
| `ImportVisit.FinishedIsReachable` | src/cli.rs:1122-1234 | what a successful walk has done is exactly what is reachable, all of it resolving and in no circle |
| `ImportLoader.Loader.Resolve` | src/cli.rs:1181-1223 | resolving one import answers exactly that, refusals with their reasons, and reads a text only once |
| `ImportLoader.Loader.Load` | src/cli.rs:1122-1234 | loading terminates and its result, error and modules done are those of the walk; on success the stack is as before |
| `ImportLoader.Loader.Finish` | src/cli.rs:1227-1232 | closing records the module's imports, takes it off the stack and counts it done |
| `ImportLoader.Loader.Expand` | src/cli.rs:1177-1226 | expanding loads the imports one after another as written, each from what the ones before left, and records what they resolve to in that order |
| `ImportLoader.CompleteInFull` | src/cli.rs:1047-1084 | after a successful load every module recorded lies in the root, each but the entry ends in `.click`, each has the text the project answers, and its imports are what the names written resolve to |
| `ImportLoader.LoadProject` | src/cli.rs:1047-1084 | loading succeeds exactly on the projects `LoadsExactlyWhen` describes; success records exactly the modules reachable from the entry, each opened once, all in the root and read as the project answers, with their imports and texts; every failure is genuine |
| `ImportVisit.ShortChainsLoad` | src/cli.rs:1122-1234 | a project whose reachable modules scan and resolve, close no circle and chain no more than 256 deep loads |
| `ImportVisit.FinishedRulesOut` | src/cli.rs:1122-1234 | a project that loads has no reachable circle, unscannable module or import that does not resolve |
| `ImportOrder.OrderDecides` | src/cli.rs:1158-1163 | two projects with the same modules and imports, a chain of 257 in both: the one whose entry imports the chain deepest first loads, the other is refused for chain length |
| `WorkerPool.RunHolds` | src/cli.rs:2186-2204 | in every interleaving, at every moment: items start once each in order, no item is in two hands, and every failure returned is recorded or about to be |
| `WorkerPool.CounterIsExact` | src/cli.rs:2189-2203 | in every interleaving the shared counter is the items started and the workers stopped |
| `WorkerPool.RunsEnd` | src/cli.rs:2189-2203 | every interleaving takes at most three steps an item and one a worker, and none gets stuck before all workers stop |
| `WorkerPool.ReportIsExact` | src/cli.rs:2181-2211 | once all workers have stopped, each item was run exactly once and the sorted failures are exactly the failing items with their messages, ascending |
| `ShellQuote.QuoteRoundTrip` | src/cli.rs:1249-1259 | reading the quotation of any word by the POSIX quoting rules gives exactly that one word |
| `ShellQuote.PlainIsUnquoted` | src/cli.rs:1249-1259 | a word is printed as it is exactly when it is not empty and all of it is letters, digits and `/ . _ : -` |
| `ShellQuote.CommandLineRoundTrip` | src/bin/click-audit.rs:1879-1883 | a command line of quoted words joined by spaces reads back as the same words in order |
| `EditDistance.NextEntry` | src/docs.rs:400-405 | an entry follows from its three neighbours as the recursive distance does |
| `EditDistance.NextRow` | src/docs.rs:398-408 | a row of distances to every prefix follows from the row above |
| `EditDistance.EditDistance` | src/docs.rs:394-410 | the one-row loop computes the recursively defined Levenshtein distance |
| `EditDistance.ZeroOnlyOnEqual` | src/docs.rs:394-410 | the distance is zero exactly on equal words |
| `EditDistance.Symmetric` | src/docs.rs:394-410 | the distance is symmetric |
| `EditDistance.Triangle` | src/docs.rs:394-410 | the distance satisfies the triangle inequality |
| `EditDistance.NoFewerEdits` | src/docs.rs:394-410 | no series of one-character edits between two words is shorter than their distance |
| `EditDistance.ThatManyEdits` | src/docs.rs:394-410 | some series of exactly that many one-character edits leads from one word to the other |

## Left out

- Marks, `retain`, `latest_statement` and the newest-first iterator of recorded snapshots: filters over the tree and log modelled here.
- The set wrapper over the map, bulk construction, and the collecting of all snapshots in order.
- Reference counting, the custom `Drop` that unlinks a log, `Hash`, `Debug` and the lexicographic `Ord` of maps.
- Snapshot heights as `u8` and map heights as `u16` are natural numbers; `AvlTree.HeightFitsAByte` shows they cannot wrap.
- SnapshotMerges.CommonDescendant: visits the changed points in any order, where the source visits them ascending; what is recorded does not depend on it. States are equal as values, their own equality not being part of this model. The point-by-point clauses are for branches of the ancestor, which is all the operations make.
- Snapshots.RecordedSnapshots.LabelLoop: requires that the label names no other loop, which the proof driver refuses (src/surface/proof/checked_drivers/tactic_laws.rs:524-554).
- Payloads of types, C fragments, snapshot selectors and resources inside expressions are tags; the passes carry them along unread.
- CallPropagation.MemoryIndependentFunctions: requires declared names to be unique, which validation of the declaration table guarantees (src/surface/validation/declaration_table.rs:43-66).
- Wall-clock deadlines, CPU clocks, the watchdog, event collectors and rendering, phases, work attributed to named operations, the peak of decision fuel, and debug-build cross-checks.
- The wording of messages, except that an exhausted run's message names the budget.
- ArenaMethods.ArenaFree: requires a live region, as freeing one twice or freeing a stale descriptor is outside what the example's callers do.
- `arena_destroy`, `arena_pipeline`, `arena_reuse`, `arena_region_length`, and the other C, C++ and Rust examples.
- Resolving the entry and the root themselves, project profiles and module identities of the import loader.
- WorkerPool.ReportIsExact: the sort is taken as any ascending permutation; a panic in a worker and the width of the shared counter are not modelled.
- ShellQuote.QuoteRoundTrip: the reader gives up on unquoted operators, expansions and double quotes instead of reading them, and knows no reserved words or aliases.
- Suggestion lists built on the edit distance, and their thresholds.
- The proof kernel, the parser, lowering, tactics and expansion, file-system access, project locks, compiler and exporter processes, configuration, and the rest of the driver.
