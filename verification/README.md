# OSTRICH, modelled and proved in Dafny

OSTRICH stores the history of an RDF triple set as delta chains. A chain starts at a full snapshot and goes on as a
patch tree: two ordered trees that tell, for each triple that ever moved, in which versions it is added or deleted with
respect to the snapshot. Queries at a version, between two versions and over all versions are merge loops over these
trees; offsets and counts come from ranks that are stored with the deletions. This project models the ingestion, the
queries, the compact values and the controller, and proves them against one simple specification: a sequence of sets,
each made from the one before by a patch.

Check the whole project with `dafny verify dfyconfig.toml`.

## How the model is built

- A triple is a key, its place in the SPO order of the dictionary. A function `vocabulary` gives the ids of a key; where
  ids matter (patterns, index orders, packed rank counters) they are 64-bit numbers. `Dictionary` says that keys and ids
  agree on the order, over a finite universe.
- An ordered tree is a map over keys. A cursor is the key it stands on. The index of a pattern is the list of the keys in
  the order of that index (`TreeIndexes.IsIndex`).
- The snapshot store answers a pattern with its matches, in SPO order, or sorted in the order of the pattern when it is
  asked to sort (`src/main/cpp/snapshot/snapshot_manager.cc:166-170`); that is what is assumed of it.
- The build modelled is the one that `CMakeLists.txt:87` sets up: compressed addition and deletion values, variable size
  integers.
- A class stands where the source has an object that its methods change: `IntervalList`, `PositionsContainer`, the two
  values, `PatchTree`, all iterators, `Controller`, `PatchTreeManager`. The proofs about them are stated over values, a
  `Store` (what a tree has stored) and a `Chain` (snapshot, history, first version).
- `ChainOk` is the invariant of a chain. It says which entries a triple has given the history (`Represents`), that the
  stored ranks are true (`RanksTrue`) and that the stored counts are (`CountsTrue`). `PatchTree.AppendUnsafe` keeps it for
  exactly the admissible patches, and every query is proved from it.

| files | what they model |
|---|---|
| Words, VariableSizeInteger, ValueCodecs | bits, LEB128, and how values are written as bytes |
| OrderedKeys, Triples, TreeIndex | keys, patterns, index orders, walks over an index |
| IntervalList, PatchPositions, Values, AdditionValue, DeletionValue, ListedAdditionValue | compact values and the plain form they replace |
| ChainHistory, Ingestion, Ranks, PatchTree | the append loop and what it keeps |
| PatchTreeValue, PatchTreeIterator, ChainReading, LaterDeletions | reading the trees |
| VersionQuery, OffsetQuery | counts, and one version from an offset on |
| DeltaStreams, MergeOrder, DeltaVerdict, ReducedDelta, DeltaQuery, DeltaOfTriple, ControllerDeltas | differences between versions |
| VersionAnnotation, CombinedVersions, ControllerVersions | all versions of every triple |
| Controller, PatchTreeCache | snapshots, chains, and which trees stay in memory |
| FailingRun | short runs of the store that end in a wrong answer, a wrong rank, or a read that is not defined |

## What the proofs found

- A patch element for a triple that is in both trees is applied by flipping the triple, whatever its sign
  (`src/main/cpp/patch/patch_tree.cc:349-353`). A patch is ingested rightly if and only if each of its elements changes
  the membership of its triple, or its triple is in one tree only (`PatchTree.AppendUnsafe`, `Admissible`).
- When a deletion in both trees is carried over and the patch stands above it, the counters get the patch element's
  triple (`src/main/cpp/patch/patch_tree.cc:405-406, 415-416`). In a chain these are the triples of the snapshot that were
  lost, came back and are lost again (`VersionQueries.StaleIff`). A stored rank is right if and only if the counter it was
  read from had been moved for as many unlike deletions as it had not been moved for like ones (`Ranks.RunRanks`,
  `EvenlyCounted`); with one foreign triple, if and only if that triple shares the counters of its owner wherever a later
  deletion reads them, and reads a counter as high as the owner's (`Ranks.OneStaleRanksRight`). `misranked` records exactly
  the versions, fields and deletions with a wrong rank; the `___` rank is never wrong, and with ids that can be packed none
  is in a version that lacks no returned triple (`Controllers.Controller.RanksToldUnlessReturned`). Queries are stated for
  wrong ranks too: a count through the SPO trees is right if and only if the rank of the last deletion is
  (`OffsetQueries.CountOfVersion`). `FailingRuns.MisrankedRun` makes a tree with a wrong rank, and `MiscountedRun` counts
  matches in its last version, where there are none.
  With large ids the packed counters collide too (`Triples.CounterCollision`).
- A query at an older version looks for the version in addition values that begin later, and steps back from the first
  entry of their map (`src/main/cpp/patch/interval_list.h:111-121`, from `src/main/cpp/patch/patch_tree_iterator.cc:178`).
  Read to its end, the walk does so if and only if a matching triple enters the chain after the version for the first time
  (`VersionQueries.DrainedWalk`, `EntersLate`; `Controllers.Controller.GetVersionMaterialized` and `AdditionsDrain` state it
  for the versions of a store): an ordinary insertion in a later version does, and then not even an empty answer can be read
  (`FailingRuns.LateAddition`). So an older version of a chain can be queried for a pattern only as long as no new matching
  triple has come since.
- A query at an older version reads ranks from values that know of no later version
  (`src/main/cpp/patch/positioned_triple_iterator.cc:14`). It sees the ranks of a deletion if and only if the triple is
  not lost again, in the last version, after a return (`LaterDeletions.RanksVisibleIff`), and it takes a local deletion for
  one of the snapshot if and only if the triple is back after the version as often as it was gone up to it, and gone in the
  last one (`LaterDeletions.LocalHiddenIff`). The loop that looks for the offset ends where the ranks it reads lead it,
  hidden or wrong ones included (`OffsetQueries.LoopIsRun`), and the answer is right if and only if as many survivors lie
  before that place as should be skipped, and as many additions are left (`OffsetQueries.RightIff`). It is so if the first
  deletion met in each turn shows its rank and the ranks are right (`OffsetQueries.ShownAlong`, `AskedIff`); from offset 0
  there is one turn (`OffsetQueries.OffsetZeroShown`). The rank of a deletion that is lost again can be read at all if and only if the triple
  is back for fewer versions than it was gone for (`LaterDeletions.RankReadIff`); it is then the rank of an earlier version
  (`LaterDeletions.HiddenRead`), and otherwise `get` looks below the first entry
  (`src/main/cpp/patch/patch_tree_deletion_value.cc:215-223`). `FailingRuns.LostAgainRun` makes a store in which the first
  deletion met has that fate.
- That loop walks over the SPO tree with an early break for every pattern (`src/main/cpp/controller/controller.cc:135-160`).
  For the patterns of the other trees the walk may break at a deletion that does not match; what the turn counts is then
  right if and only if the matching deletions lie on one side (`OffsetQueries.WithoutHit`). Where no rank is hidden, as in
  the last version, and all are right, the whole query is right if and only if this holds of each of its turns, and else it
  delivers too much (`OffsetQueries.AskedIff`, `EarlyMisses`). `FailingRuns.BlockedRun` gets such an answer from a last
  version.
- A count of deletions is taken from the rank of the last one in the index of the pattern
  (`src/main/cpp/patch/patch_tree.cc:675-702`), but ranks follow the SPO order. For a lone predicate, whose index is sorted
  by objects first, the last one need not have the highest rank: with right ranks the count is right if and only if it has
  (`VersionQueries.CountRightIff`, `OffsetQueries.CountedIff`). `FailingRuns.PredicateRun` counts one match in an empty last
  version.
- `to_reduced` drops the gaps of a deletion value (`src/main/cpp/patch/patch_tree_deletion_value.h:607-614`). A count
  of deletions through the POS or OSP tree is right only if the last triple that was once deleted is deleted in the version
  (`VersionQueries.CountRightIff`). Between two versions of a chain, a triple is told rightly through these trees if and
  only if their values tell a change exactly where there is one (`ReducedDeltas.ReducedDiffIff`, `SeenPresent`), and the
  whole answer is right if and only if that holds of every match (`DeltaQueries.ForwardDiff`). A triple of the snapshot
  that comes back is never told (`ReducedDeltas.ComesBackUntold`, `FailingRuns.ComesBackRun`). From a snapshot, and across
  snapshots, the answers through these trees are right (`DeltaQueries.ForwardPatch`, `ControllerDeltas.GetDeltaMaterialized`).
- A delta merges the walks over the two trees with the SPO comparator, whatever the index
  (`src/main/cpp/patch/patch_tree_iterator.cc:239`). For a lone predicate, whose index is in POS order, the merge comes in the
  order of the walks if and only if POS and SPO agree on neighbours, that is on a triple that went and one that came with
  none of either between them (`DeltaQueries.MergeInOrder`, `MergeOrders.NextTo`). Then the delta is right as for the other
  patterns; and if no match has gone and come, the delta from a snapshot is right only then (`DeltaQueries.ForwardPatch`).
  A triple that has done both may be met apart in the two walks: it is then told wrongly if and only if it was in the
  snapshot and is back (`DeltaQueries.ToldApart`). `FailingRuns.PredicateDeltaRun` gets the deletion of a triple that both
  versions hold. Whatever the orders, within a chain the answer is a function of the versions, and every match that has
  moved only once is told rightly (`DeltaOfTriple.EachTold`, `ControllerDeltas.OnceMovedTold`). All later merges compare in the order of the pattern (`DeltaStreams.ComposeIsDelta`, `DivertIsDelta`).
- Version annotations need no condition: for all eight shapes every triple comes once, in the order of the pattern, with
  exactly its versions (`ControllerVersions.GetVersion`). Deltas through the SPO trees need none either.
- `get_version` looks up the tree for a snapshot with `get_patch_tree_id(id + 1)`, and for a last snapshot finds the chain
  before it. The annotations are still right, because they are true of that chain and the merge is a union.
- The documentation gives 200 as the default of `MIN_ADDITION_COUNT` (`README.md:132`); the code has 100
  (`src/main/cpp/patch/triple_store.h:27`), and so has the model.
- `flush_addition_counts` steps before it reads, so it never looks at the first record
  (`src/main/cpp/patch/triple_store.cc:287-291`). Counts of a version that were not stored are taken by hand, so answers are
  not affected. A count under version 0 that is skipped stays as an earlier version left it: it is the number of triples
  that had come in by then (`Ranks.EverCounted`, `PatchTree.AppendUnsafe`).

## Model

| member | source | states |
|---|---|---|
| Intervals.IntervalList.Addition | src/main/cpp/patch/interval_list.h:28-66 | intervals stay disjoint, sorted and non-touching; an absent element adds everything up to the next stored start, a present one nothing; says whether anything changed |
| Intervals.IntervalList.Deletion | src/main/cpp/patch/interval_list.h:87-105 | a present element is removed together with the rest of its interval, an absent one changes nothing |
| Intervals.IntervalList.IsIn | src/main/cpp/patch/interval_list.h:111-121 | membership in one of the intervals, at or above the first stored start |
| Intervals.IntervalList.GetIndex | src/main/cpp/patch/interval_list.h:150-161 | the place of a value in the plain increasing list that the intervals stand for, or -1 |
| Intervals.IntervalList.GetElementAt | src/main/cpp/patch/interval_list.h:169-180 | the inverse: the element at a place of that list, or the maximum; at a place before the list, the number counted back from the first start |
| Intervals.IntervalList.GetSize | src/main/cpp/patch/interval_list.h:187-195 | the length of that list, less what an unended interval starts past the limit |
| Intervals.IdsCorrect | src/main/cpp/patch/interval_list.h:150-195 | the plain list is increasing, holds stored values only, and below the limit all of them |
| Values.Canonical | src/main/cpp/patch/interval_list.h:28-105 | two interval lists with the same members are the same list |
| Values.SteadyListed | src/main/cpp/patch/interval_list.h:150-195 | when nothing changes from a version on, rank, select and size see exactly the members below the limit, the one in force last |
| Positions.PositionsContainer.InsertPositions | src/main/cpp/patch/patch_tree_deletion_value.cc:681-699 | the dense view changes from the version up to the next stored one, and nowhere else; an equal value is not stored again |
| Positions.PositionsContainer.GetPositions | src/main/cpp/patch/patch_tree_deletion_value.cc:706-718 | what a dense map would hold: the ranks last stored at or before the version |
| Positions.StoredLast | src/main/cpp/patch/patch_tree_deletion_value.cc:681-718 | inserting at the end leaves the ranks of all earlier versions as they were |
| AdditionValues.AdditionValue.Add | src/main/cpp/patch/patch_tree_addition_value.cc:169-174 | opens a run at the version, tells whether it was new, and learns of the version |
| AdditionValues.AdditionValue.GetPatchIdAt | src/main/cpp/patch/patch_tree_addition_value.cc:202-205 | the version at a place of the plain list, or -1 |
| DeletionValues.DeletionValue.Add | src/main/cpp/patch/patch_tree_deletion_value.h:387-397 | opens a run of versions, one of local changes if the element is one, and stores the ranks from the version on |
| DeletionValues.DeletionValue.Get | src/main/cpp/patch/patch_tree_deletion_value.cc:215-223 | the entry of the version if its place seems to exist, else that of the last version that seems to; if none seems to, what is stored for a version below the first one, which it looks up |
| DeletionValues.GetDefinedIff | src/main/cpp/patch/patch_tree_deletion_value.cc:215-223 | the ranks of a stored value can be looked up if and only if some entry seems to exist; else the lookup goes below the first one |
| DeletionValues.DeletionValue.ToReduced | src/main/cpp/patch/patch_tree_deletion_value.h:607-614 | what is left is one run from the first version on: all gaps are lost |
| ListedAdditionValues.ListedAdditionValue.Add | src/main/cpp/patch/patch_tree_addition_value.cc:10-15 | inserts the version at its place, once |
| ListedAdditionValues.ListedAdditionValue.GetPatchvalueIndex | src/main/cpp/patch/patch_tree_addition_value.cc:21-28 | the place in the list of all versions, or -1 |
| ListedAdditionValues.NextListed | src/main/cpp/patch/patch_tree_addition_value.cc:169-209 | one version more: the list behind the runs grows by exactly that version if the value holds it |
| ListedAdditionValues.Drive | src/main/cpp/patch/patch_tree.cc:214-231 | over any contiguous run of versions the compact value and the list of all versions give the same answers, and list exactly the versions that add the triple |
| Triples.JumpThenEarlyBreak | src/main/cpp/patch/patch_tree_iterator.cc:96-109 | a jump to the pattern lands at or below every match, and the first mismatch from there on is above every match |
| Triples.QueryOrderContiguous | src/main/cpp/patch/triple_store.h:89-102 | for all eight shapes the matches are one contiguous run of the order chosen |
| Triples.DefaultTreeIffContiguous | src/main/cpp/patch/triple_store.h:82-87 | the patterns of the default tree are exactly those with one contiguous run in SPO order |
| Triples.MergeOrderAgrees | src/main/cpp/patch/patch_tree.cc:821-830 | over the matches of a pattern the index order is the SPO order, except for a lone predicate |
| Triples.SameCounterIffSamePattern | src/main/cpp/patch/patch.cc:132-145 | within 16 bits, two triples share a rank counter exactly if they agree on the bound components |
| Triples.CounterCollision | src/main/cpp/patch/patch.cc:132-135 | past 16 bits they may share one without agreeing |
| TreeIndexes.StreamIsSelect | src/main/cpp/patch/patch_tree_iterator.cc:96-140 | stopping at the first mismatch loses no match |
| TreeIndexes.JumpedSelect | src/main/cpp/patch/patch_tree_iterator.cc:82-197 | for all eight shapes, jumping to a pattern in its index and walking on delivers exactly the matching keys, in the order of the index |
| TreeIndexes.JumpedStream | src/main/cpp/patch/patch_tree_iterator.cc:82-197 | jumping to a pattern in its index and walking on delivers exactly the matching keys, in SPO order, for every pattern but a lone predicate |
| TreeIndexes.JumpedSafe | src/main/cpp/patch/patch_tree_iterator.cc:142-197 | up to its n-th hit such a walk comes across a bad key if and only if fewer than n hits lie before it in the index |
| TreeIndexes.JumpedBack | src/main/cpp/patch/patch_tree.cc:634-673 | jumping back from the pattern's upper end finds the matching key that is last in the index, if there is one |
| TreeIndexes.IndexOf | src/main/cpp/patch/triple_store.cc:98-120 | for each of the three orders, the keys of a tree strictly sorted by its comparator, each once |
| ChainHistory.KeyStepRepresents | src/main/cpp/patch/patch_tree.cc:188-462 | the entries of a triple keep their meaning, for every version, if and only if the patch element is admissible |
| ChainHistory.RepresentsOk | src/main/cpp/patch/patch_tree.cc:188-462 | entries with that meaning satisfy what ingestion relies on before the next version |
| Ingestion.HeadReady | src/main/cpp/patch/patch_tree.cc:183-188 | the least of the three heads is a triple nothing has been done to yet |
| Ingestion.TurnDone | src/main/cpp/patch/patch_tree.cc:183-462 | a turn that settles the least head leaves everything at or below it settled and everything above it untouched |
| Ingestion.RunKeySteps | src/main/cpp/patch/patch_tree.cc:146-462 | at the end every triple has made its step, mentioned by the patch or not |
| Ranks.PatchApplied | src/main/cpp/patch/patch_tree.cc:101-105 | applying a patch changes membership exactly as its elements say |
| Ranks.EntriesOfVersion | src/main/cpp/patch/patch_tree.cc:253-462 | at each version: non-local addition iff in S_v and not in S0, non-local deletion iff in S0 and not in S_v, local addition iff touched and in both, local deletion iff touched and in neither, never both |
| Ranks.TallyIsRank | src/main/cpp/patch/patch.cc:96-158 | a counter's value when it is read for a deletion is the number of earlier deletions it was moved for |
| Ranks.RunRanks | src/main/cpp/patch/patch_tree.cc:194-211 | after a version, the rank stored for a deletion in a field is the number of deletions before it that agree with it there, if and only if the counter it was read from was moved evenly |
| Ranks.RanksTrueStep | src/main/cpp/patch/patch_tree.cc:194-211 | a version keeps `misranked` exact: a version, a field and a deletion are in it if and only if the rank stored there is wrong; the `___` rank never is; wrong or not, no rank of a deletion is negative |
| Ranks.OwnTriplesRankRight | src/main/cpp/patch/patch.cc:96-158 | with ids that can be packed, and its own triple counted for every deletion, the ranks of all seven fields are right |
| Ranks.OneStaleRanksRight | src/main/cpp/patch/patch_tree.cc:405-416 | with one foreign triple counted, the ranks of a field are right if and only if it reads a counter as high as its own, and shares the counter of every later deletion that its owner shares, and no other |
| Ingestion.CountedAtHead | src/main/cpp/patch/patch_tree.cc:405-416 | the triple counted for a deletion in both trees is its own if the patch has it, else that of the next patch element, or of the last one past the end |
| FailingRuns.CountsUnevenly | src/main/cpp/patch/patch_tree.cc:405-416 | in a chain of three versions the next patch moves the counter of the second deletion unevenly over the subject |
| FailingRuns.MisrankedRun | src/main/cpp/patch/patch_tree.cc:405-416 | four patches make a tree in which the rank stored with the second deletion is wrong over the subject |
| FailingRuns.MiscountedRun | src/main/cpp/patch/patch_tree.cc:675-702 | the matches of that subject in its last version, of which there are none, are counted as some other number |
| Ranks.CountsTrueStep | src/main/cpp/patch/triple_store.cc:283-304 | every stored count of a version is the number of matching non-local additions, and at least the threshold; one under version 0 is the number of matching triples outside the snapshot that had come in by some version |
| Ranks.StoredAfterFlush | src/main/cpp/patch/triple_store.cc:283-304 | after the flush a count is written if and only if it reaches the threshold, but for the one record that is skipped: under the version the number of its matching additions, under 0 the number of all matching triples that ever came into the chain and are not in the snapshot |
| Ranks.EverAddedMeans | src/main/cpp/patch/patch_tree.cc:236-238 | the triples counted under version 0 are those outside the snapshot that some version holds |
| Ranks.ChainStep | src/main/cpp/patch/patch_tree.cc:101-475 | a version keeps the whole invariant of the chain, for exactly the admissible patches |
| PatchTrees.PatchTree.AppendUnsafe | src/main/cpp/patch/patch_tree.cc:101-475 | the history grows by the patched version; every triple makes its step; the tree stays valid if and only if all elements are admissible; a rank of the new version is marked if and only if its counter was moved unevenly; the counts of the version, and those over all versions, are written exactly if they reach the threshold, with one record skipped |
| PatchTrees.PatchTree.Step | src/main/cpp/patch/patch_tree.cc:146-462 | one turn settles a key greater than all settled before, which is why the loop ends |
| PatchTrees.PatchTree.CarryDeletion | src/main/cpp/patch/patch_tree.cc:188-213 | D < P, A: a non-local deletion gets the ranks of the version, from its own triple |
| PatchTrees.PatchTree.CarryAddition | src/main/cpp/patch/patch_tree.cc:214-238 | A < P, D: a non-local addition is counted for the version, and once more for all versions |
| PatchTrees.PatchTree.InsertNew | src/main/cpp/patch/patch_tree.cc:239-252 | P < A, D: a new entry, not local, ranked or counted, for the version and for all versions |
| PatchTrees.PatchTree.AtDeletion | src/main/cpp/patch/patch_tree.cc:253-292 | P = D < A: an addition closes the deletion and is local, a deletion stays; nothing is counted for all versions |
| PatchTrees.PatchTree.AtAddition | src/main/cpp/patch/patch_tree.cc:293-331 | P = A < D: a deletion closes the addition and is local, with all seven ranks -1, an addition stays and is counted; either way the triple is counted for all versions |
| PatchTrees.PatchTree.AtBoth | src/main/cpp/patch/patch_tree.cc:332-445 | D = A: the side in force goes on, or gives way to the other when the patch has the triple, whatever its sign; a local deletion has all seven ranks -1; a triple outside the snapshot is counted for all versions |
| PatchTrees.PatchTree.TakeRanks | src/main/cpp/patch/patch.cc:123-158 | seven ranks, each the tally of its counter, and every counter moves by one |
| PatchTrees.PatchTree.StoreDeletion | src/main/cpp/patch/triple_store.cc:174-199 | the value goes to the SPO tree, and the trees in the other orders go on holding exactly the reduced values of its keys |
| PatchTrees.PatchTree.IncrementAdditionCounts | src/main/cpp/patch/triple_store.cc:240-248 | an addition is counted for the seven patterns it matches and no other |
| PatchTrees.PatchTree.CountEver | src/main/cpp/patch/patch_tree.cc:236-238 | a triple is counted for all versions if and only if its first addition was not local |
| PatchTrees.PatchTree.FlushAdditionCounts | src/main/cpp/patch/triple_store.cc:283-304 | all counts taken in this version that reach the threshold are stored, but for the one record that the walk steps off; the others stay as they were |
| TreeValues.PatchTreeValue.IsAddition | src/main/cpp/patch/patch_tree_value.cc:34-71 | the version is listed in the addition |
| DeltaVerdicts.FirstTold | src/main/cpp/patch/patch_tree_value.cc:78-89 | the values of a triple tell that it existed in the snapshot if and only if the snapshot of the chain holds it |
| DeltaVerdicts.PresentTold | src/main/cpp/patch/patch_tree_value.cc:91-130 | they tell that it is present at a version if and only if that version holds it; so two versions are told alike if and only if both hold it or neither does |
| PatchTreeIterators.PatchTreeIterator.NextDeletion | src/main/cpp/patch/patch_tree_iterator.cc:82-140 | delivers the next key that passes the filters, with its value; a silent step stays on it |
| PatchTreeIterators.PatchTreeIterator.NextAddition | src/main/cpp/patch/patch_tree_iterator.cc:142-197 | the same for additions, provided that no value up to the next hit begins after the version asked for; after a hit the walk is in reach for one hit less |
| PatchTreeIterators.PatchTreeIterator.MergeTurn | src/main/cpp/patch/patch_tree_iterator.cc:228-281 | the smaller of two heads is delivered and the other held back, equal heads together |
| PatchTreeIterators.PatchTreeIterator.Next | src/main/cpp/patch/patch_tree_iterator.cc:200-293 | the merge of both walks, each key once, without local changes if they are filtered |
| ChainReading.DeletionHitMeaning | src/main/cpp/patch/patch_tree_iterator.cc:104-133 | a walk at a version delivers exactly the matching triples of the snapshot that the version lacks, and the local deletions it cannot see as local |
| ChainReading.AdditionHitMeaning | src/main/cpp/patch/patch_tree_iterator.cc:165-195 | a walk at a version delivers exactly the matching triples of the version that the snapshot lacks |
| ChainReading.RankIsPlace | src/main/cpp/patch/patch_tree_deletion_value.h:44-56 | the rank read for a pattern is right if and only if it is the number of matching deletions before the triple |
| LaterDeletions.PlacedUnlessLater | src/main/cpp/patch/patch_tree_deletion_value.cc:215-223 | a version's place seems to exist if and only if no unended run begins after it |
| LaterDeletions.RanksVisibleIff | src/main/cpp/patch/positioned_triple_iterator.cc:10-22 | in a chain, a reader of version v sees the ranks of a deletion if and only if the triple does not come back later and get lost again in the last version |
| LaterDeletions.LocalHiddenIff | src/main/cpp/patch/patch_tree_deletion_value.cc:225-233 | a local deletion seems empty to a reader of version v if and only if the triple is back after v as often as it was gone up to v, and gone in the last version |
| LaterDeletions.LateRunSize | src/main/cpp/patch/interval_list.h:187-195 | the size that reader sees: the versions held up to v less those missed between v and the last run |
| LaterDeletions.ReadsOwnVersion | src/main/cpp/patch/patch_tree_deletion_value.cc:214-223 | `get` answers for the version asked for if its place seems to exist, and for an earlier one if not |
| LaterDeletions.SizeWhenLostAgain | src/main/cpp/patch/interval_list.h:187-195 | of a deletion that is lost again, that reader sees as many versions as lack the triple up to v, less those that have it back |
| LaterDeletions.RankReadIff | src/main/cpp/patch/positioned_triple_iterator.cc:10-22 | the rank of a deletion can be read at v, rightly or not, if and only if the triple is not lost again or is back for fewer versions than it was gone for |
| LaterDeletions.HiddenRead | src/main/cpp/patch/patch_tree_deletion_value.cc:215-223 | the rank read of a deletion that is lost again is that of an earlier version: the one by which the triple had been gone for as many versions as it is gone for by v, less those that have it back |
| LaterDeletions.HiddenRank | src/main/cpp/patch/positioned_triple_iterator.cc:10-22 | that rank is the number of matching deletions before the triple in that version, if and only if it is not stored wrong there |
| LaterDeletions.MetIff | src/main/cpp/patch/patch_tree_iterator.cc:104-133 | what a walk of that reader delivers, in terms of the chain alone, and when it sees the ranks of it |
| FailingRuns.LostAgainFails | src/main/cpp/controller/controller.cc:131-178 | in every store with versions {t}, {}, {t}, {} in one chain, the deletion of t is all that a query at version 1 meets, and its value seems empty: size 0, place not shown, ranks looked up below their first entry |
| FailingRuns.LostAgainRun | src/main/cpp/controller/controller.cc:131-178 | makes such a store |
| VersionQueries.TreeQueryable | src/main/cpp/patch/patch_tree.cc:101-475 | every patch tree that ingestion built can be queried at each of its versions |
| VersionQueries.LastDeletionValue | src/main/cpp/patch/patch_tree.cc:634-673 | the last matching triple, in the order of its index, that a deletion tree has for the version |
| VersionQueries.DeletionCount | src/main/cpp/patch/patch_tree.cc:675-702 | the last deletion that the tree of the pattern tells of, and one more than the rank read for it, whatever that rank is; both are right if and only if that triple is deleted, is the last deletion in SPO order, and its rank is right |
| VersionQueries.CountRightIff | src/main/cpp/patch/patch_tree.cc:675-702 | that equivalence: through the SPO trees the rank alone decides; if the triple is deleted and its rank right, the deletions up to it are counted |
| VersionQueries.RankReadNatural | src/main/cpp/patch/patch_tree_deletion_value.cc:215-223 | a rank read for a triple of the snapshot is never negative, whichever version the value answers for, if some entry seems to exist |
| VersionQueries.AdditionStart | src/main/cpp/patch/patch_tree.cc:188-462 | the addition tree holds the triples that ever come into the chain, each from its first time on |
| VersionQueries.StaleIff | src/main/cpp/patch/patch_tree.cc:332-416 | a triple of the snapshot is handled with a foreign triple at hand if and only if it came back before and the patch does not mention it |
| VersionQueries.ReturnsStep | src/main/cpp/patch/patch_tree.cc:405-416 | every version keeps that, with ids that can be packed, a rank is wrong only in a version that lacks a triple which had come back |
| VersionQueries.DrainedWalk | src/main/cpp/patch/interval_list.h:111-121 | read to its end, the walk over the additions looks below a first start if and only if a matching triple enters the chain after the version for the first time |
| VersionQueries.AdditionIteratorFrom | src/main/cpp/patch/patch_tree.cc:791-819 | the matching additions of the version in the order of the index, without the first `offset`; how many more can be delivered, as an equivalence over the history of the chain |
| VersionQueries.AdditionsInSpo | src/main/cpp/patch/patch_tree.cc:821-830 | that order is the SPO order for every pattern but a lone predicate |
| VersionQueries.AdditionCount | src/main/cpp/patch/patch_tree.cc:832-853 | the number of matching non-local additions, stored, or counted by hand if no triple enters late |
| FailingRuns.LateAdditionFails | src/main/cpp/patch/patch_tree_iterator.cc:178 | in every store with versions {}, {}, {t} in one chain, the walk over the additions at version 1 looks below a first start before it can tell that there is no addition |
| FailingRuns.LateAddition | src/main/cpp/patch/patch_tree_iterator.cc:178 | makes such a store and queries it: the answer is empty, but asking for a first triple is out of reach |
| OffsetQueries.FixpointSkips | src/main/cpp/controller/controller.cc:124-179 | starting where as many deletions come before as places are skipped yields what survives from the offset on |
| OffsetQueries.EarlyMisses | src/main/cpp/controller/controller.cc:124-179 | starting at the offset with a deletion before it and a survivor behind never yields the answer from the offset on |
| OffsetQueries.PastSurvivors | src/main/cpp/controller/snapshot_patch_iterator_triple_id.cc:74-98 | the offset left for the additions once the snapshot is exhausted |
| OffsetQueries.PositionedTripleIterator.Next | src/main/cpp/patch/positioned_triple_iterator.cc:10-22 | the next deletion, and the rank stored for the version that its value answers for |
| OffsetQueries.DeletionIteratorFrom | src/main/cpp/patch/patch_tree.cc:704-716 | starts at the first triple that can be met at or after a triple, if no deletion that does not match lies before it; finds nothing only if there is none or it is blocked |
| OffsetQueries.OffsetZeroShown | src/main/cpp/controller/controller.cc:131-178 | from offset 0 the loop looks only behind the first match of the snapshot |
| OffsetQueries.NeverBlocked | src/main/cpp/controller/controller.cc:135-136 | for the patterns of the SPO trees the early break comes behind all matches |
| OffsetQueries.WithoutHit | src/main/cpp/controller/controller.cc:139-160 | when the walk finds nothing, the number of deletions before that the loop goes on with is right if and only if the matching deletions lie on one side of the triple |
| OffsetQueries.TurnBlocked | src/main/cpp/controller/controller.cc:140-160 | where nothing is hidden, a turn goes wrong only when its walk is blocked between deletions: it then counts none, although some come before |
| OffsetQueries.LatestShown | src/main/cpp/controller/controller.cc:131-178 | at the last version every turn of the loop meets a deletion whose ranks show |
| OffsetQueries.FindOffset | src/main/cpp/controller/controller.cc:124-178 | for all eight shapes, where each rank asked for can be read: the numbers of skipped deletions grow from 0, each is what the turn at the place before it reads, and the end is exactly what the last turn reads, even if that is less, or the last number when the matches are exhausted; it ends because a turn that goes on skips more |
| OffsetQueries.LoopIsRun | src/main/cpp/controller/controller.cc:131-178 | there is exactly one such run of turns for a pattern, a version and an offset, whatever ranks are stored; the loop can be run if and only if every turn of it can read its rank |
| OffsetQueries.EndTrusted | src/main/cpp/controller/controller.cc:124-178 | with right ranks, that is the least number of deletions that equals the number among the triples skipped, or the end of the matches, if each turn meets a rank that shows or has its deletions on one side; where nothing is hidden and some turn does not, it is the offset itself, with a deletion before it and a survivor behind |
| OffsetQueries.TurnReadable | src/main/cpp/patch/positioned_triple_iterator.cc:10-22 | a turn can read the rank it finds if the triple is not lost again or is back for fewer versions than it was gone for |
| OffsetQueries.MetDefined | src/main/cpp/controller/controller.cc:124-178 | so the whole loop can be run wherever that holds of every triple that can be met |
| FailingRuns.BlockedFails | src/main/cpp/controller/controller.cc:135-160 | in every store with versions {0,1,2,3} and {1} over that dictionary, the query for a bound object from offset 1 delivers triple 1, and nothing is left to deliver |
| FailingRuns.BlockedRun | src/main/cpp/controller/controller.cc:135-160 | makes such a store and gets that wrong answer, in the last version |
| OffsetQueries.OneTriple | src/main/cpp/controller/snapshot_patch_iterator_triple_id.cc:45-72 | walking to one snapshot triple finds it exactly if the version has lost it |
| OffsetQueries.SnapshotPatchIterator.Next | src/main/cpp/controller/snapshot_patch_iterator_triple_id.cc:28-107 | delivers the surviving snapshot triples, then the additions, one by one; only an addition asks that no value up to it begins late |
| OffsetQueries.GetVersionMaterialized | src/main/cpp/controller/controller.cc:112-179 | for all eight pattern shapes, every offset and whatever ranks are stored, where those asked for can be read: delivers the survivors from the place on where the run of turns ends, then the additions from the place on that the count leads to; this is the offset-0 answer without its first `offset` elements if and only if as many survivors and additions are skipped as should be; all of it can be read if and only if no matching triple enters late (past a stored count: the last one does not) |
| OffsetQueries.RightIff | src/main/cpp/controller/controller.cc:112-179 | from any place in the snapshot and any place in the additions on, the answer is right if and only if both numbers are |
| OffsetQueries.PlaceRightIff | src/main/cpp/controller/controller.cc:124-178 | a place among the matches of the snapshot is right if and only if as many deletions lie before it as the loop has skipped |
| OffsetQueries.AskedIff | src/main/cpp/controller/controller.cc:112-179 | where ranks are right, the last deletion is told and nothing is hidden, or just not from the loop, it is right if and only if no turn is blocked between deletions; else everything from the offset on is delivered |
| OffsetQueries.GetVersionMaterializedCount | src/main/cpp/controller/controller.cc:47-83 | the matches of the snapshot, less the deletions as they are counted, plus the additions |
| OffsetQueries.CountOfVersion | src/main/cpp/controller/controller.cc:47-83 | through the SPO trees that is the number of matches in the version if and only if the rank of the last deletion is right; through the others, with a right rank, it is if the tree tells the last deletion, and if the last once-deleted triple is deleted, the deletions up to it are taken off |
| OffsetQueries.CountedIff | src/main/cpp/patch/patch_tree.cc:675-702 | the count is then right if and only if that triple is also the last deletion in SPO order |
| FailingRuns.PredicateFails | src/main/cpp/patch/patch_tree.cc:675-702 | in every store with versions {0,1} and {} over a dictionary where the first triple has the greater object, the count for the lone predicate takes off one deletion of two |
| FailingRuns.PredicateRun | src/main/cpp/controller/controller.cc:47-83 | makes such a store and counts one match in its last version, which is empty |
| OffsetQueries.AnswerIsVersion | src/main/cpp/controller/controller.cc:91-180 | the answer holds each matching triple of the version exactly once, and nothing else |
| DeltaStreams.ComposeIsDelta | src/main/cpp/controller/triple_delta_iterator.cc:176-225 | in any of the orders, delta(X,Y) and delta(Y,Z) merge into delta(X,Z) for all sets |
| DeltaStreams.DivertIsDelta | src/main/cpp/controller/triple_delta_iterator.cc:285-334 | in any of the orders, delta(S,Y) and delta(S,Z) merge into delta(Y,Z) for all sets |
| DeltaStreams.DeltaUnique | src/main/cpp/controller/triple_delta_iterator.h:12-18 | there is only one signed difference of two sets in an order |
| DeltaStreams.ListsDivert | src/main/cpp/controller/triple_delta_iterator.cc:100-159 | comparing two snapshots, sorted in the order of the pattern, triple by triple gives their signed difference |
| DeltaStreams.MergeDiffIterator.Next | src/main/cpp/controller/triple_delta_iterator.cc:176-225 | delivers the composition, skipping changes that undo each other |
| DeltaStreams.MergeDiffIteratorCase2.Next | src/main/cpp/controller/triple_delta_iterator.cc:285-334 | delivers the detour, inverting the first difference |
| DeltaStreams.SnapshotDiffIterator.Next | src/main/cpp/controller/triple_delta_iterator.cc:100-159 | delivers the difference of two lists sorted by its comparator |
| MergeOrders.MergesAlike | src/main/cpp/patch/patch_tree_iterator.cc:239-281 | a merge of two walks by the SPO comparator delivers in their own order if and only if the two orders agree on neighbours |
| MergeOrders.MatchesAgree | src/main/cpp/patch/patch_tree.cc:821-830 | they do for every pattern but a lone predicate |
| DeltaVerdicts.PatchVerdictRight | src/main/cpp/controller/triple_delta_iterator.cc:44-57 | the sign told for a walked triple is that of the change from the snapshot |
| DeltaVerdicts.DiffVerdictRight | src/main/cpp/controller/triple_delta_iterator.cc:65-76 | the sign told for a walked triple is that of the change between the two versions |
| ReducedDeltas.ReducedPatchSame | src/main/cpp/controller/triple_delta_iterator.cc:44-57 | the sign told from the snapshot does not depend on the gaps that reduced values lack |
| ReducedDeltas.ReducedPresent | src/main/cpp/patch/patch_tree_value.cc:91-100 | through reduced values a triple of the snapshot is told present until it is first lost, another one as long as it has been gone for fewer versions than it stayed at first |
| ReducedDeltas.ReducedDiffIff | src/main/cpp/controller/controller.cc:260-270 | between two versions a triple is told rightly through reduced values if and only if these tell a change exactly where there is one |
| ReducedDeltas.ComesBackUntold | src/main/cpp/controller/controller.cc:260-270 | a triple of the snapshot that is lost in one version and back in the other is never told |
| FailingRuns.ComesBackRun | src/main/cpp/controller/controller.cc:260-270 | makes a tree in which that happens |
| DeltaQueries.ForwardPatchIterator.Next | src/main/cpp/controller/triple_delta_iterator.cc:44-57 | delivers the next change from the snapshot |
| DeltaQueries.ForwardPatch | src/main/cpp/controller/triple_delta_iterator.cc:25-57 | delivers the merge of the two walks by the SPO comparator, through the tree of the pattern; this is the signed difference of the snapshot and a version, sorted in the order of the pattern, each triple once, if the orders agree on neighbours, as they do for every pattern but a lone predicate; and only then, if no match has both gone and come |
| DeltaQueries.WalkedHistory | src/main/cpp/controller/triple_delta_iterator.cc:25-57 | the two walks deliver the matches that have gone out of the chain, and come into it, up to the version |
| DeltaQueries.MergeInOrder | src/main/cpp/patch/patch_tree_iterator.cc:239-281 | their merge comes in the order of the pattern if and only if that order and the SPO order agree on neighbours among these |
| DeltaQueries.ToldApart | src/main/cpp/controller/triple_delta_iterator.cc:44-57 | a triple of both walks that is met apart is told wrongly if and only if the snapshot and the version hold it |
| FailingRuns.PredicateDeltaFails | src/main/cpp/patch/patch_tree_iterator.cc:239-281 | in every tree with versions {0}, {}, {0,1}, where the second triple has the lesser object, the delta of a lone predicate from the snapshot tells the deletion of 0 |
| FailingRuns.PredicateDeltaRun | src/main/cpp/controller/controller.cc:272-286 | makes such a tree and gets that answer |
| DeltaQueries.ReducedDiffWalk | src/main/cpp/controller/controller.cc:260-270 | the walk through reduced values delivers the difference of two versions if and only if it is told of every match |
| DeltaQueries.ForwardDiff | src/main/cpp/controller/triple_delta_iterator.cc:59-76 | delivers the merge of the two walks by the SPO comparator, between any two versions of a chain; if the orders agree on neighbours, the signed difference through the SPO trees always, through the others if and only if their values tell it |
| DeltaOfTriple.AddedBetween | src/main/cpp/patch/patch_tree_value.cc:91-113 | between two versions an addition that is met apart from its deletion is told if and only if exactly one of the two lists it, that is holds the triple since it came in; its sign is whether the last one does |
| DeltaOfTriple.DeletedBetween | src/main/cpp/patch/patch_tree_value.cc:91-113 | a deletion that is met apart is told, through reduced values, if and only if the triple goes out of the chain for the first time between the two |
| DeltaOfTriple.ReducedTold | src/main/cpp/patch/patch_tree_value.cc:91-113 | a triple met in both walks together is told, through reduced values, if and only if these see it in just one of the two versions, with the sign of whether the last one holds it since it came in |
| DeltaOfTriple.MergeDelivers | src/main/cpp/patch/patch_tree_iterator.cc:228-281 | whatever the orders, the merge delivers each walk's delivery of a triple exactly once: together, or apart |
| DeltaOfTriple.PatchIs | src/main/cpp/controller/triple_delta_iterator.cc:25-57 | what is delivered from the snapshot, in order and whatever the orders of the walks, as a function of the versions of the chain |
| DeltaOfTriple.DiffIs | src/main/cpp/controller/triple_delta_iterator.cc:59-76 | the same between two versions, through the tree of the pattern |
| DeltaOfTriple.EachTold | src/main/cpp/controller/controller.cc:250-286 | of each triple: one that does not match is not told; one that has moved only once is told exactly once, with its sign, if it differs, and else not; one that has both gone and come is told by its values, or by each half if it is met apart, which takes a lone predicate |
| DeltaOfTriple.SinceTold | src/main/cpp/controller/triple_delta_iterator.cc:44-57 | from the snapshot every match is told rightly, except a triple of the snapshot that is back and is met apart: its deletion is told |
| VersionAnnotation.EraseDeletedVersions | src/main/cpp/controller/triple_versions_iterator.cc:298-319 | the versions from the first to the last that are not deleted |
| VersionAnnotation.NotDeletedIsThere | src/main/cpp/controller/triple_versions_iterator.cc:298-319 | from its snapshot or first addition on, a triple is in a version if and only if the version is not deleted |
| VersionAnnotation.PatchTreeTripleVersionsIterator.Next | src/main/cpp/controller/triple_versions_iterator.cc:355-408 | delivers the union of snapshot and additions in the order of its comparator, each triple once with its versions |
| VersionAnnotation.AnnotateChain | src/main/cpp/controller/triple_versions_iterator.cc:321-353 | what is delivered in all, for all eight shapes: the version's matches and every matching addition, in the order of the pattern |
| VersionAnnotation.MergeArranged | src/main/cpp/controller/triple_versions_iterator.cc:355-408 | in any of the orders, merging two sorted sets of triples sorts their union |
| VersionAnnotation.WholeChainAnnotated | src/main/cpp/controller/triple_versions_iterator.cc:321-408 | these are the triples ever in the chain, and each is annotated with exactly the versions that hold it |
| CombinedVersions.CombineUnites | src/main/cpp/controller/triple_versions_iterator.cc:432-463 | in any of the orders, the merge stays strictly sorted and maps each triple to the union of its version lists |
| CombinedVersions.TripleVersionsIteratorCombined.AddIterator | src/main/cpp/controller/triple_versions_iterator.cc:432-463 | the in-place merge by the comparator of the pattern computes that; it ends because stream or list get shorter |
| Controllers.LatestSnapshot | src/main/cpp/snapshot/snapshot_manager.cc:16-35 | the greatest snapshot id at or below a version, or -1 |
| Controllers.PatchTreeId | src/main/cpp/patch/patch_tree_manager.cc:110-122 | the greatest tree id at or below a version, or -1 |
| Controllers.NextChain | src/main/cpp/controller/controller.cc:440-445 | a new tree is made exactly if the last version has become a snapshot; otherwise the last tree ends with the last version |
| Controllers.LayoutGrows | src/main/cpp/controller/controller.cc:438-450 | each tree starts right after its snapshot and covers up to and including the next one, after every append |
| Controllers.LayoutSnapshot | src/main/cpp/controller/controller.cc:478-499 | the last version may become a snapshot at any time |
| Controllers.VersionFound | src/main/cpp/controller/controller.cc:91-112 | every version is its snapshot or lies in the chain behind its latest snapshot |
| Controllers.SegmentIs | src/main/cpp/controller/controller.cc:91-112 | that chain consists of the versions from behind the latest snapshot up to the next snapshot or the last version, whatever tree holds it |
| Controllers.Controller.GetVersionMaterialized | src/main/cpp/controller/controller.cc:91-180 | the iterator at a version, where the ranks asked for can be read: what the chain behind the version delivers (`Answered`), readable to its end if and only if no matching triple of the versions behind it enters late |
| Controllers.Controller.AnsweredWhere | src/main/cpp/controller/controller.cc:131-179 | at a version that is no snapshot the run of turns has one end, and what is delivered begins there |
| Controllers.Controller.AnsweredRight | src/main/cpp/controller/controller.cc:91-180 | it is the right answer from the offset on if and only if the offset loop ends at the right place |
| Controllers.Controller.AskableMeans | src/main/cpp/controller/controller.cc:91-180 | where ranks are right, the last deletion is told and no rank is hidden, or just not from the loop, the ranks can be read and the answer is right if and only if no turn is blocked; the conditions speak of the versions and snapshots and the wrong ranks |
| Controllers.Controller.AdditionsDrain | src/main/cpp/patch/interval_list.h:111-121 | at every version, the walk over the matching additions can be read to its end if and only if none of them enters late |
| Controllers.Controller.RanksToldUnlessReturned | src/main/cpp/patch/patch_tree.cc:405-416 | with ids that can be packed, the ranks of a version are right for every pattern if it lacks no triple that had come back in its chain |
| Controllers.Controller.Append | src/main/cpp/controller/controller.cc:438-501 | appends the patched version; a new snapshot, made from the answer to a query, holds exactly the version |
| Controllers.Controller.AppendRun | src/main/cpp/controller/controller.cc:438-501 | the versions of a run depend on the patches alone, for every sequence of strategy decisions; the snapshots are those decided on |
| Controllers.Controller.VersionMaterialized | src/main/cpp/controller/controller.cc:91-180 | the answer at a version read to its end, whatever chain the version lies in, from any offset on, for all patterns and whatever ranks are stored: right if and only if the offset loop ends at the right place |
| Controllers.Controller.AnswerIsContent | src/main/cpp/controller/controller.cc:91-180 | the answer is exactly the matching part of S_v, each triple once |
| Controllers.Controller.VersionMaterializedCount | src/main/cpp/controller/controller.cc:47-83 | the count at every version, for all patterns and whatever ranks are stored; that no triple enters late is asked only where no count is stored |
| Controllers.Controller.CountMeans | src/main/cpp/controller/controller.cc:47-83 | it is the number of matches in S_v if the rank of the last deletion is right and the tree of the pattern tells that deletion; through the SPO trees if and only if the rank is; else, with a right rank, the deletions up to the last once-deleted triple are taken off if that triple is deleted |
| Controllers.Controller.LatestAnswerable | src/main/cpp/controller/controller.cc:482-486 | the answer at the last version is right through the SPO trees for everything, as making a snapshot asks, and for every pattern whose ranks are right |
| Controllers.Controller.LatestReadable | src/main/cpp/controller/controller.cc:482-486 | any query at the last version, from any offset, can be made and read to its end, whatever ranks are stored |
| ControllerDeltas.Distance | src/main/cpp/controller/triple_delta_iterator.cc:396-412 | the distance in the list of snapshots is at most one exactly if no snapshot lies between the two |
| ControllerDeltas.SnapshotDelta | src/main/cpp/controller/triple_delta_iterator.cc:396-422 | the difference of two snapshots: triple by triple for all eight shapes, and through a shared chain if the orders agree on neighbours |
| ControllerDeltas.GetDeltaMaterialized | src/main/cpp/controller/controller.cc:245-340 | for any start, end and offset, with any number of snapshots between them: from the offset on, the exact answer as the versions and the snapshots determine it (`AnswerIs`); where every stretch of a chain on the way comes in order it is the signed difference of S_start and S_end, in the order of the pattern, each triple once, if and only if the pattern is served by the SPO trees, a snapshot lies at or between them, or reduced values tell the changes; nothing if the end is not after the start |
| ControllerDeltas.SingleDelta | src/main/cpp/controller/controller.cc:250-286 | within a chain the answer is what its versions say, whatever the orders; where they agree it is the change, from the snapshot always and between versions if and only if the values tell it |
| ControllerDeltas.OnceMovedTold | src/main/cpp/controller/controller.cc:302-307 | between two versions with the same latest snapshot every matching triple that has moved only once since then is told exactly once, with its sign, if the two differ on it, and else not, whatever the orders and whatever reduced values tell of others |
| ControllerDeltas.DeltaAlwaysInOrder | src/main/cpp/patch/patch_tree.cc:821-830 | for every other pattern they always do |
| ControllerVersions.AnnotateSnapshot | src/main/cpp/controller/controller.cc:423-434 | for all eight shapes the annotations of one snapshot are all true, in the order of the pattern, and complete for the versions up to its chain's end |
| ControllerVersions.AllListed | src/main/cpp/controller/controller.cc:423-434 | true annotations that are complete for every snapshot's span list exactly the versions of every triple |
| ControllerVersions.GetVersion | src/main/cpp/controller/controller.cc:417-436 | for all eight shapes: every matching triple that some version holds, once and in the order of the pattern, with exactly the versions that hold it, from an offset on |
| Leb128.EncodeUleb128 | src/main/cpp/patch/variable_size_integer.h:35-43 | appends the encoding to the buffer |
| Leb128.EncodeSleb128 | src/main/cpp/patch/variable_size_integer.h:50-60 | appends the encoding to the buffer |
| Leb128.GetUleb128Size | src/main/cpp/patch/variable_size_integer.h:9-16 | the length of the encoding, at most 10 |
| Leb128.GetSleb128Size | src/main/cpp/patch/variable_size_integer.h:18-28 | the length of the encoding, at most 10 |
| Leb128.DecodeUleb128 | src/main/cpp/patch/variable_size_integer.h:70-86 | for any bytes: the number they spell and its length if it ends within ten bytes and fits in 64 bits, an error if not |
| Leb128.DecodeSleb128 | src/main/cpp/patch/variable_size_integer.h:94-117 | the same in two's complement, for numbers of at most ten bytes |
| Leb128.UlebSpells | src/main/cpp/patch/variable_size_integer.h:35-43 | the encoding is one number and spells the value |
| Leb128.SlebSpells | src/main/cpp/patch/variable_size_integer.h:50-60 | the same for signed values |
| Leb128.UlebRoundTrip | src/main/cpp/patch/variable_size_integer.h:35-86 | decoding an encoded 64-bit value, whatever bytes follow, returns the value and its exact length |
| Leb128.SlebRoundTrip | src/main/cpp/patch/variable_size_integer.h:50-117 | the same for signed values |
| ValueCodecs.SerializeIntervals | src/main/cpp/patch/interval_list.h:201-236 | writes the ends of the intervals one after the other |
| ValueCodecs.DeserializeIntervals | src/main/cpp/patch/interval_list.h:243-265 | reads them back for every well-formed list of 32-bit intervals |
| ValueCodecs.PositionDiff | src/main/cpp/patch/patch_tree_deletion_value.cc:425-477 | one head bit per changed field, the version, and the differences that are not zero |
| ValueCodecs.BitAbove | src/main/cpp/patch/patch_tree_deletion_value.cc:429-456 | setting bit k of the head adds the flag of field k and disturbs no other |
| ValueCodecs.PositionUndiff | src/main/cpp/patch/patch_tree_deletion_value.cc:509-572 | reads an entry back from the ranks before it, and where its bytes end |
| ValueCodecs.SerializePositions | src/main/cpp/patch/patch_tree_deletion_value.cc:480-504 | the first entry in full, the others as differences |
| ValueCodecs.DeserializePositionVec | src/main/cpp/patch/patch_tree_deletion_value.cc:579-594 | undoes it for every non-empty vector whose differences fit in 64 bits |
| ValueCodecs.SerializeAddition | src/main/cpp/patch/patch_tree_addition_value.cc:240-268 | the length of the versions, the versions, the local changes |
| ValueCodecs.DeserializeAddition | src/main/cpp/patch/patch_tree_addition_value.cc:270-289 | undoes the writing of every addition value |
| ValueCodecs.SerializeDeletion | src/main/cpp/patch/patch_tree_deletion_value.h:426-452 | two lengths, the versions, the local changes, the ranks |
| ValueCodecs.WordByte | src/main/cpp/patch/patch_tree_deletion_value.h:426-452 | byte i of a length is its digit of 256 to the power of i |
| ValueCodecs.DeserializeDeletion | src/main/cpp/patch/patch_tree_deletion_value.h:454-476 | undoes the writing of every deletion value |
| PatchTreeCaches.SweepsLastFree | src/main/cpp/patch/patch_tree_manager.cc:151-165 | the trees behind the last unused one move to the front and that one goes |
| PatchTreeCaches.SweepsNone | src/main/cpp/patch/patch_tree_manager.cc:151-165 | if all are used, a full turn brings the list back as it was |
| PatchTreeCaches.WithoutAt | src/main/cpp/patch/patch_tree_manager.cc:168-172 | taking an id out of the list keeps the order of the others |
| PatchTreeCaches.RoomSafe | src/main/cpp/patch/patch_tree_manager.cc:147-173 | no used or accessed tree is dropped, one other goes, and the list does not grow |
| PatchTreeCaches.PatchTreeManager.UpdateCacheInternal | src/main/cpp/patch/patch_tree_manager.cc:151-173 | list and map stay in bijection, the accessed id ends in front; the recursion ends on the iteration count |
| PatchTreeCaches.PatchTreeManager.UpdateCache | src/main/cpp/patch/patch_tree_manager.cc:147-149 | the victim is the unused tree nearest the back of the list; without one, nothing is dropped |
| PatchTreeCaches.PatchTreeManager.LoadPatchTree | src/main/cpp/patch/patch_tree_manager.cc:75-84 | the tree is in memory and in front; if the list is full and some other tree is unused, the unused one nearest the back goes, the trees behind it come before the rest, and otherwise the list keeps its order; no other tree enters or leaves memory |

## Left out

- OffsetQueries.GetVersionMaterialized: promises nothing where a turn of the offset loop asks for a rank that lies below the first entry of its value (`LoopDefined`), where the lookup is undefined.
- OffsetQueries.FindOffset: asks the same (`LoopDefined`).
- Controllers.Controller.GetVersionMaterialized: asks the same (`RanksReadable`), for versions that are not snapshots.
- Controllers.Controller.VersionMaterialized: asks the same, and that the answer can be read to its end (`Drains`).
- OffsetQueries.CountOfVersion: through the POS and OSP trees it does not say when a count is right although the rank of the last deletion is wrong or read from another version; what is counted is stated all the same (`CountRead`).
- Intervals.IntervalList.IsIn: not below the first stored start, where the lookup steps back from the first entry; the same holds for additions and deletions of elements and for the ranks.
- ControllerDeltas.GetDeltaMaterialized: for a lone predicate where POS and SPO disagree on neighbours in some stretch, and snapshots lie between the versions, it states the answer as pieces put together (`Pieced`), not when that is the change, since a wrong piece may be made up for by a later one. Each stream is read to its end before the next merge starts, where the source pulls.
- DeltaQueries.ForwardPatch: that the orders must agree is stated only if no match has both gone and come; otherwise a disagreement over triples that have not changed in all does no harm.
- DeltaQueries.ForwardDiff: that they must agree is not stated; what is delivered is, and what that tells of each triple (`DeltaOfTriple.EachTold`).
- Leb128.DecodeSleb128: says of numbers longer than ten bytes only that they are not decoded, because a shift by 64 or more is undefined.
- PatchTreeCaches.PatchTreeManager.UpdateCache: the recency it keeps is that of loading, since `get_patch_tree` does not touch the list; list iterators are modelled by the ids they point to.
- The POS and OSP trees are one map of reduced values with an index in each order; that their keys stay those of the SPO tree is proved, the writing of each tree is not modelled apart.
- In the append loop the next head is fetched at the end of a turn instead of at its start, which is the same sequence of steps.
- `PatchTree::append` with its check for repeated triples, `reconstruct_patch`, and the non-squashing merge of `PatchTreeIterator`.
- `get_version_count` and its estimates, which read the addition counts stored under version 0; how these are kept is stated.
- Integer widths of versions and counts: versions stay below the maximum that marks an unended interval, ranks and counts are unbounded.
- Dictionaries, string comparators and ids across chains: one dictionary whose order is that of the keys.
- Kyoto Cabinet, HDT, compression, metadata files, locks and threads, result estimates, progress listeners, and the size of allocated buffers. `Triple::serialize`.
- The strategy that decides on snapshots: an arbitrary decision per append. The snapshot cache, which works like that of the patch trees.
- `IntervalList::lone_addition` and `get_interval`, the two position containers that are not constructed, the older version iterators, `IterativeSnapshotDiffIterator`, `PlainDiffDeltaIterator`, `SortedTripleDeltaIterator`.
- The sticky local flag of uncompressed addition values.
