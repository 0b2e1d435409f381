# RisingWave storage, scheduling and wire-protocol core in Dafny

This project models, in Dafny, the following parts of RisingWave:

- **The Hummock version engine.** A Hummock version maps each compaction group to its levels:
  - L0 is a list of sub-levels.
  - L1..Ln are runs of SSTables.

  `apply_version_delta` moves a version forward by one delta:
  - committing an epoch appends an overlapping sub-level to L0;
  - a compaction deletes runs and inserts the compacted ones;
  - groups can be constructed, split off their parent, handed tables, and destroyed.

  Around it sit:
  - the summary of a group's deltas;
  - the level operations (delete, insert, add to a sub-level, insert a new sub-level);
  - the split of a parent group's runs into a child group;
  - the read-only views (combined levels, object ids, table-to-group map, per-group delta infos);
  - `validate_version`.
- **The pinned version.** A snapshot pins its version id through a channel. A background worker keeps the ledger of pinned ids, expires old pins, and calls the unpin RPC.
- **`FromRustIterator`.** A Hummock iterator over an in-memory ordered container, and the union that forwards to it.
- **`EstimatedLruCache`.** An unbounded LRU cache that tracks the estimated heap size of what it holds.
- **The frontend's worker node manager.** It covers:
  - the worker list and its parallel-unit cache;
  - the fragment mappings;
  - the worker mask;
  - the selector's choice of a worker.
- **The batch row sequential scan.** It covers:
  - scan ranges;
  - the bounds handed to storage;
  - the chunk size;
  - the chunks `do_execute` yields up to the limit.
- **The extended-query part of the Postgres wire protocol.** This is Parse, Bind, Execute, Describe, Close, Flush, Sync and Terminate, with:
  - the connection's statements, portals, cached results and dependency lists;
  - C-string reading;
  - the truncating formatter of the query log.
- **Window function kinds**, read from their protobuf form.

State that the source updates in place is modelled as a class, each with a `State()` or `Value()` function:
- the version;
- the pinned-version worker;
- the cache;
- the worker manager;
- the connection;
- the truncating formatter.

Each method is proved to leave the state its pure step function gives. The properties are proved about those functions.

Panics are modelled as a `Failure` result: a failed `assert!`, an `unwrap` of `None`, or an index out of range. Whatever the environment answers is a parameter of the model. This covers:
- what the SQL session answers;
- storage reads;
- the meta RPC;
- the clock;
- the random draw.

## Model

| member | source | states |
|---|---|---|
| HummockTypes.InsertByKeyRange | src/storage/hummock_sdk/src/compaction_group/hummock_version_ext.rs:1014-1016 | inserting a run keeps every run and adds exactly the new one |
| HummockTypes.InsertKeepsSorted | src/storage/hummock_sdk/src/compaction_group/hummock_version_ext.rs:1014-1016 | inserting into runs sorted by key range leaves them sorted |
| HummockTypes.SortByKeyRange | src/storage/hummock_sdk/src/compaction_group/hummock_version_ext.rs:1014-1016 | sorting by key range is a permutation of the runs |
| HummockTypes.SortByKeyRangeSorted | src/storage/hummock_sdk/src/compaction_group/hummock_version_ext.rs:1014-1016 | the sorted runs ascend by key range |
| HummockTypes.SumSizesSort | src/storage/hummock_sdk/src/compaction_group/hummock_version_ext.rs:1014-1025 | sorting keeps the total file and uncompressed sizes |
| HummockTypes.SumSizesAppend | src/storage/hummock_sdk/src/compaction_group/hummock_version_ext.rs:1017-1025 | the size of two run lists together is the sum of their sizes |
| HummockTypes.SumSizesInsert | src/storage/hummock_sdk/src/compaction_group/hummock_version_ext.rs:1017-1025 | inserting a run adds exactly its size |
| HummockTypes.SumLevelSizesAppend | src/storage/hummock_sdk/src/compaction_group/hummock_version_ext.rs:670-692 | the size of two level lists together is the sum of their sizes |
| HummockLevels.RetainNotDeleted | src/storage/hummock_sdk/src/compaction_group/hummock_version_ext.rs:983-990 | keeps every run whose id is not deleted, as often as before, and no deleted run |
| HummockLevels.RetainNotDeletedLength | src/storage/hummock_sdk/src/compaction_group/hummock_version_ext.rs:983-996 | the level shrinks, and keeps its length exactly when no run is deleted |
| HummockLevels.LevelDeleteSsts | src/storage/hummock_sdk/src/compaction_group/hummock_version_ext.rs:978-997 | the level keeps exactly its runs with an undeleted id, its counters match what is left, and it reports a change exactly when some run had a deleted id |
| HummockLevels.LevelInsertSstsSpec | src/storage/hummock_sdk/src/compaction_group/hummock_version_ext.rs:999-1026 | fails exactly when the merged runs cannot be concatenated; otherwise the runs are the old ones plus the inserted ones, sorted and concat-able, an overlapping level becomes non-overlapping, and the counters stay consistent |
| HummockLevels.NewSubLevel | src/storage/hummock_sdk/src/compaction_group/hummock_version_ext.rs:857-881 | a level-0 sub-level with the given id, type and runs, whose counters are the sums over its runs |
| HummockLevels.SumLevelSizesUpdate | src/storage/hummock_sdk/src/compaction_group/hummock_version_ext.rs:904-912 | replacing one sub-level changes L0's total by the difference of the two sizes |
| HummockLevels.SumLevelSizesInsert | src/storage/hummock_sdk/src/compaction_group/hummock_version_ext.rs:944-952 | inserting a sub-level anywhere adds exactly its size |
| HummockLevels.AddSstsToSubLevelSpec | src/storage/hummock_sdk/src/compaction_group/hummock_version_ext.rs:884-915 | an out-of-range index fails; otherwise only the chosen sub-level changes, it gains exactly the inserted runs, a non-overlapping one stays concat-able, and L0's counters stay consistent |
| HummockLevels.InsertNewSubLevelAppendSpec | src/storage/hummock_sdk/src/compaction_group/hummock_version_ext.rs:919-953 | without a hint the sub-level is appended, which succeeds exactly when its id exceeds the newest one's, keeping ids ascending and counters consistent |
| HummockLevels.InsertNewSubLevelAtSpec | src/storage/hummock_sdk/src/compaction_group/hummock_version_ext.rs:919-953 | with a hint the sub-level lands at exactly that position, which must be in range, and the others keep their order |
| HummockLevels.RemoveRunIds | src/storage/hummock_sdk/src/compaction_group/hummock_version_ext.rs:704-712 | the loop over one level's runs removes exactly their ids from the ids still to be found |
| HummockLevels.RemoveSubLevelRunIds | src/storage/hummock_sdk/src/compaction_group/hummock_version_ext.rs:701-713 | the loop over L0's sub-levels removes exactly their run ids |
| HummockLevels.RemoveLevelRunIds | src/storage/hummock_sdk/src/compaction_group/hummock_version_ext.rs:700-713 | removes exactly the run ids of the chosen level |
| HummockLevels.ListedRunIdsAdd | src/storage/hummock_sdk/src/compaction_group/hummock_version_ext.rs:700-713 | the runs of the listed levels grow by the runs of each added level |
| HummockLevels.CheckDeletedSstExist | src/storage/hummock_sdk/src/compaction_group/hummock_version_ext.rs:695-715 | true exactly when every deleted id is a run of one of the listed levels |
| HummockLevels.PartitionPoint | src/storage/hummock_sdk/src/compaction_group/hummock_version_ext.rs:655-668 | the first sub-level whose id is not below the target, every earlier one below it |
| HummockLevels.NonEmptySubLevels | src/storage/hummock_sdk/src/compaction_group/hummock_version_ext.rs:670-692 | keeps exactly the sub-levels that hold runs |
| HummockLevels.ApplyCompactSstsIgnoresExpired | src/storage/hummock_sdk/src/compaction_group/hummock_version_ext.rs:623-641 | a compaction whose deleted runs are no longer all there changes nothing |
| HummockLevels.RetainNotDeletedSorted | src/storage/hummock_sdk/src/compaction_group/hummock_version_ext.rs:983-985 | dropping runs keeps a level sorted by key range |
| HummockLevels.RetainNotDeletedDisjoint | src/storage/hummock_sdk/src/compaction_group/hummock_version_ext.rs:983-985 | dropping runs keeps pairwise non-overlapping runs apart |
| HummockLevels.RetainNotDeletedConcat | src/storage/hummock_sdk/src/compaction_group/hummock_version_ext.rs:983-985 | dropping runs keeps a sorted level sorted and a concat-able level concat-able |
| HummockLevels.DeleteFromLevels | src/storage/hummock_sdk/src/compaction_group/hummock_version_ext.rs:642-652 | every listed level, and every sub-level when L0 is listed, keeps exactly its runs whose id is not deleted, with its header, and its counters become the sums over what is left; sorted and concat-able levels stay so; L0's own counters are untouched until the purge |
| HummockLevels.InsertCompacted | src/storage/hummock_sdk/src/compaction_group/hummock_version_ext.rs:654-669 | no runs change nothing; a target level out of range fails; otherwise only the target level, or the sub-level found by `partition_point` with exactly the target id, gains the runs as `level_insert_ssts` does, and every other level stays as it was |
| HummockLevels.NonEmptySubLevelsRuns | src/storage/hummock_sdk/src/compaction_group/hummock_version_ext.rs:670-676 | purging the empty sub-levels loses no run |
| HummockLevels.DeleteFromLevelsL0Runs | src/storage/hummock_sdk/src/compaction_group/hummock_version_ext.rs:642-647 | the runs of L0 after the deletion are exactly those not deleted there |
| HummockLevels.InsertCompactedL0Runs | src/storage/hummock_sdk/src/compaction_group/hummock_version_ext.rs:654-664 | the runs of L0 after the insertion are those before plus the inserted runs when L0 is the target |
| HummockLevels.ApplyCompactSstsLevelRuns | src/storage/hummock_sdk/src/compaction_group/hummock_version_ext.rs:613-694 | after a compaction that is not expired, a run is in level i exactly when it was there and was not deleted from it, or was inserted with level i as the target |
| HummockLevels.ApplyCompactSstsContents | src/storage/hummock_sdk/src/compaction_group/hummock_version_ext.rs:613-694 | a compaction that is not expired removes from each listed level exactly the deleted runs, adds the inserted runs to the target level, and keeps every other run in its level |
| HummockLevels.ApplyCompactSstsL0Runs | src/storage/hummock_sdk/src/compaction_group/hummock_version_ext.rs:613-694 | a run is in L0 after the compaction exactly when it was there and not deleted from L0, or was inserted into L0 |
| HummockLevels.ApplyCompactSstsL0Contents | src/storage/hummock_sdk/src/compaction_group/hummock_version_ext.rs:613-694 | the same for every run at once |
| HummockLevels.NonEmptySubLevelsAscending | src/storage/hummock_sdk/src/compaction_group/hummock_version_ext.rs:670-676 | purging empty sub-levels keeps the sub-level ids ascending |
| HummockLevels.ApplyCompactSstsKeepsOrder | src/storage/hummock_sdk/src/compaction_group/hummock_version_ext.rs:613-694 | a compaction keeps L0's sub-level ids ascending, and keeps each of L1..Ln sorted and concat-able when it was and has no inverted key range |
| HummockTypes.CanConcatPairwise | src/storage/hummock_sdk/src/compaction_group/hummock_version_ext.rs:1017-1025 | with well-formed key ranges, adjacent runs not overlapping is the same as no two runs overlapping |
| HummockLevels.ApplyCompactSstsKeepsLevels | src/storage/hummock_sdk/src/compaction_group/hummock_version_ext.rs:613-693 | a compaction keeps the group's identity, members, level count and consistent counters |
| HummockLevels.ApplyCompactSstsPurgesL0 | src/storage/hummock_sdk/src/compaction_group/hummock_version_ext.rs:670-692 | after deleting from L0 no sub-level is empty and L0's counters are the sums of its sub-levels' |
| HummockLevels.ApplyCompactSstsNeedsTargetSubLevel | src/storage/hummock_sdk/src/compaction_group/hummock_version_ext.rs:654-665 | inserting into L0 succeeds only if the target sub-level exists |
| HummockLevels.InitialCompactionGroupLevels | src/storage/hummock_sdk/src/compaction_group/hummock_version_ext.rs:718-743 | a new group has empty levels L1..Lmax with their indexes, an empty L0, no parent and no members |
| HummockLevels.BuildInitialCompactionGroupLevels | src/storage/hummock_sdk/src/compaction_group/hummock_version_ext.rs:718-743 | the loop builds exactly that group |
| HummockSplit.SplitRuns | src/storage/hummock_sdk/src/compaction_group/hummock_version_ext.rs:746-788 | one run out per run in, and one branch per split record |
| HummockSplit.SplitSstInfoForLevel | src/storage/hummock_sdk/src/compaction_group/hummock_version_ext.rs:746-788 | the loop gives the level, split records, branches and next id of the run-by-run split |
| HummockSplit.IdsUsedBound | src/storage/hummock_sdk/src/compaction_group/hummock_version_ext.rs:207-232 | a split uses at most two ids per run holding a moving table, and exactly two without trivial moves, so the reserved block always suffices |
| HummockSplit.IdsUsedAppend | src/storage/hummock_sdk/src/compaction_group/hummock_version_ext.rs:207-232 | ids used and intersecting runs add up over concatenated runs |
| HummockSplit.SplitRunsIds | src/storage/hummock_sdk/src/compaction_group/hummock_version_ext.rs:758-784 | ids are handed out from the start without gaps, one record per intersecting run; each record names the branch's id and object; every id handed out lies in the block, and the records' ids ascend from record to record |
| HummockSplit.SplitRunsShape | src/storage/hummock_sdk/src/compaction_group/hummock_version_ext.rs:758-784 | each run keeps its object, key range and sizes, and loses its tables exactly when split trivially |
| HummockSplit.SplitRunsBranches | src/storage/hummock_sdk/src/compaction_group/hummock_version_ext.rs:758-784 | each branch is an intersecting run of the level with only its id changed |
| HummockSplit.SplitRunsRecords | src/storage/hummock_sdk/src/compaction_group/hummock_version_ext.rs:758-784 | the k-th record and the k-th branch belong to the k-th intersecting run: the branch is that run with the child id, and the record names its object, its old id as the old parent id, and as new parent id the old one when the split is trivial and otherwise the id after the child's |
| HummockSplit.SplitRunsAppend | src/storage/hummock_sdk/src/compaction_group/hummock_version_ext.rs:746-790 | splitting two lists of runs one after the other, the second from where the first left off, is splitting them together |
| HummockSplit.RecordsHandOutDistinctIds | src/storage/hummock_sdk/src/compaction_group/hummock_version_ext.rs:758-784 | records whose ids ascend never hand out the same id twice, within a record or across two records |
| HummockSplit.KeptClearedPartition | src/storage/hummock_sdk/src/compaction_group/hummock_version_ext.rs:282-290 | the runs kept after a split and the runs cleared by a trivial split are together exactly the split runs |
| HummockSplit.PurgeClearedRunsSpec | src/storage/hummock_sdk/src/compaction_group/hummock_version_ext.rs:282-290 | purging the cleared runs keeps the level's header and exactly its runs that still hold tables, and keeps counters equal to the sums over the runs consistent |
| HummockSplit.BranchIntoL0Spec | src/storage/hummock_sdk/src/compaction_group/hummock_version_ext.rs:259-309 | moving branches into the child's L0, into the sub-level with the same id or a new one at the hinted place, adds exactly those runs to the child's L0 and keeps its counters consistent, when the sub-level id is not `U64_MAX` |
| HummockSplit.KeptRuns | src/storage/hummock_sdk/src/compaction_group/hummock_version_ext.rs:282-284 | a run is kept after a split exactly when it was a run before and still holds tables |
| HummockSplit.ClearedRuns | src/storage/hummock_sdk/src/compaction_group/hummock_version_ext.rs:282-284 | a run is cleared exactly when it was a run before and a trivial split left it without tables |
| HummockSplit.SplitL0Step | src/storage/hummock_sdk/src/compaction_group/hummock_version_ext.rs:260-313 | one sub-level iteration changes only that sub-level of the parent and the child's L0 |
| HummockSplit.ChildLevelInsert | src/storage/hummock_sdk/src/compaction_group/hummock_version_ext.rs:331-341 | the child level after receiving branches is concat-able |
| HummockSplit.SplitLevelStep | src/storage/hummock_sdk/src/compaction_group/hummock_version_ext.rs:315-342 | one level iteration keeps both groups' fixed fields |
| HummockSplit.SplitL0From | src/storage/hummock_sdk/src/compaction_group/hummock_version_ext.rs:260-313 | the remaining sub-level iterations leave the parent's L1..Ln alone |
| HummockSplit.SplitLevelsFrom | src/storage/hummock_sdk/src/compaction_group/hummock_version_ext.rs:315-342 | the remaining level iterations keep both groups' fixed fields |
| HummockSplit.AppendRecords | src/storage/hummock_sdk/src/compaction_group/hummock_version_ext.rs:260-342 | records from consecutive id blocks join into records within the whole block, still ascending |
| HummockSplit.SplitStepRecords | src/storage/hummock_sdk/src/compaction_group/hummock_version_ext.rs:260-342 | splitting one more list of runs extends the records within the block, ascending |
| HummockSplit.FlattenRunsStep | src/storage/hummock_sdk/src/compaction_group/hummock_version_ext.rs:260-342 | the runs of the first n levels are those of the first n-1 and then level n's |
| HummockSplit.FlattenRunsNonEmpty | src/storage/hummock_sdk/src/compaction_group/hummock_version_ext.rs:282-284 | if no level has an empty run, neither do the flattened runs |
| HummockSplit.SplitL0StepSpec | src/storage/hummock_sdk/src/compaction_group/hummock_version_ext.rs:260-313 | a sub-level step hands out exactly the ids its runs need, right after those already used, and leaves no parent run without tables |
| HummockSplit.SplitLevelStepSpec | src/storage/hummock_sdk/src/compaction_group/hummock_version_ext.rs:315-342 | a level step hands out exactly the ids its runs need, leaves the other levels alone, and keeps the child level sorted and concat-able |
| HummockSplit.NonL0ProgressStep | src/storage/hummock_sdk/src/compaction_group/hummock_version_ext.rs:315-342 | the loop invariant over L1..Ln survives one iteration |
| HummockSplit.NonL0ProgressDone | src/storage/hummock_sdk/src/compaction_group/hummock_version_ext.rs:315-342 | after the loop the ids used are exactly those of all runs of L1..Ln and no run is left without tables |
| HummockSplit.SplitL0Levels | src/storage/hummock_sdk/src/compaction_group/hummock_version_ext.rs:260-313 | the loop over the parent's sub-levels ends in the state the iterations `SplitL0From` describe, or fails where they fail |
| HummockSplit.SplitL0LevelsSpec | src/storage/hummock_sdk/src/compaction_group/hummock_version_ext.rs:260-313 | the sub-level iterations hand out exactly the ids their runs need after the ones already handed out, with records within the id block and ascending, and leave no parent L0 run without tables |
| HummockSplit.SplitNonL0Levels | src/storage/hummock_sdk/src/compaction_group/hummock_version_ext.rs:315-342 | the loop over L1..Ln ends in the state the iterations `SplitLevelsFrom` describe, or fails where they fail |
| HummockSplit.SplitNonL0LevelsSpec | src/storage/hummock_sdk/src/compaction_group/hummock_version_ext.rs:315-342 | the L1..Ln iterations hand out exactly the ids their runs need, with records within the id block and ascending, leave L0 alone, leave no parent run without tables and every child level that received runs sorted and concat-able |
| HummockSplit.SplitGroupsShape | src/storage/hummock_sdk/src/compaction_group/hummock_version_ext.rs:234-344 | after both loops only the parent and child groups change, all ids lie in the reserved block, and no parent run is left without tables |
| HummockSplit.InitWithParentGroupShape | src/storage/hummock_sdk/src/compaction_group/hummock_version_ext.rs:234-344 | a successful split hands out no id outside the `count_new_ssts_in_group_split` block, with the records' ids ascending so that none is handed out twice (RecordsHandOutDistinctIds), changes only the two groups, leaves no parent run without tables and the child's levels sorted and concat-able |
| HummockSplit.InitWithParentGroupRecords | src/storage/hummock_sdk/src/compaction_group/hummock_version_ext.rs:234-344 | the records of a successful split are those of splitting all of the parent's runs, L0 first, in one go: one per intersecting run, in order, with that run's object and old id, and the new parent id as the trivial/non-trivial rule says |
| HummockSplit.InitWithParentGroupL0Runs | src/storage/hummock_sdk/src/compaction_group/hummock_version_ext.rs:253-313 | the child's L0 gains exactly the branches of the parent's L0, the parent's L0 keeps exactly the split runs that still hold tables, and both L0s keep consistent counters (sub-level ids below `U64_MAX`) |
| HummockSplit.InitWithParentGroupChildLevels | src/storage/hummock_sdk/src/compaction_group/hummock_version_ext.rs:314-335 | each child level i gains exactly the branches of parent level i and keeps consistent counters; the child's other levels stay as they were |
| HummockSplit.InitWithParentGroupParentLevels | src/storage/hummock_sdk/src/compaction_group/hummock_version_ext.rs:314-342 | each parent level keeps exactly its split runs that still hold tables, with consistent counters if it had them |
| HummockSplit.InitWithParentGroup | src/storage/hummock_sdk/src/compaction_group/hummock_version_ext.rs:234-344 | ends where `InitWithParentGroupSpec` does, and with the outcome `InitWithParentGroupShape` states: nothing happens without a real parent; otherwise parent and child must be two existing groups, no id outside the `count_new_ssts_in_group_split` block is handed out, the records' ids ascend, only the two groups change, no parent run is left without tables, and the child's levels are sorted and concat-able |
| HummockSummary.SummarizeGroupDeltas | src/storage/hummock_sdk/src/compaction_group/hummock_version_ext.rs:50-89 | the loop gives the summary of the deltas folded first to last |
| HummockSummary.SummaryOfFailureStays | src/storage/hummock_sdk/src/compaction_group/hummock_version_ext.rs:66-73 | once a prefix of the deltas fails, the whole summary fails the same way |
| HummockSummary.PrefixStep | src/storage/hummock_sdk/src/compaction_group/hummock_version_ext.rs:50-89 | the removed ids and removing levels of the deltas are those of the prefix plus the last delta's |
| HummockSummary.SummaryOfContents | src/storage/hummock_sdk/src/compaction_group/hummock_version_ext.rs:56-65 | the summary collects exactly the removed run ids, the levels they are removed from, the inserted runs in order, and the meta changes in order |
| HummockSummary.SummaryOfInsertTarget | src/storage/hummock_sdk/src/compaction_group/hummock_version_ext.rs:60-64 | the insert level and sub-level are those of the last delta inserting a run, or unset when none does |
| HummockSummary.SummaryOfFails | src/storage/hummock_sdk/src/compaction_group/hummock_version_ext.rs:66-80 | the summary fails exactly when two deltas construct the group or two destroy it |
| HummockVersionUpdate.InsertId | src/storage/hummock_sdk/src/compaction_group/hummock_version_ext.rs:478-487 | inserting an id keeps every id and adds exactly the new one |
| HummockVersionUpdate.InsertIdSorted | src/storage/hummock_sdk/src/compaction_group/hummock_version_ext.rs:478-487 | inserting into sorted ids keeps them sorted |
| HummockVersionUpdate.SortIds | src/storage/hummock_sdk/src/compaction_group/hummock_version_ext.rs:478-487 | sorting the member ids is a permutation |
| HummockVersionUpdate.SortIdsSorted | src/storage/hummock_sdk/src/compaction_group/hummock_version_ext.rs:478-487 | the sorted member ids ascend |
| HummockVersionUpdate.RetainNotIn | src/storage/hummock_sdk/src/compaction_group/hummock_version_ext.rs:481-483 | keeps exactly the ids not listed for removal |
| HummockVersionUpdate.ExtractIn | src/storage/hummock_sdk/src/compaction_group/hummock_version_ext.rs:459-464 | extracts exactly the ids of the moving tables |
| HummockVersionUpdate.ExtractSplits | src/storage/hummock_sdk/src/compaction_group/hummock_version_ext.rs:459-466 | the extracted and the remaining ids together are the origin's member ids, each as often as before |
| HummockVersionUpdate.MetaChangeSpec | src/storage/hummock_sdk/src/compaction_group/hummock_version_ext.rs:478-487 | after a meta change the member ids are sorted and are exactly the old or added ids that are not removed |
| HummockVersionUpdate.MetaChangesSorted | src/storage/hummock_sdk/src/compaction_group/hummock_version_ext.rs:478-487 | after at least one meta change the member ids are sorted |
| HummockVersionUpdate.CommitEpochSpec | src/storage/hummock_sdk/src/compaction_group/hummock_version_ext.rs:495-523 | a commit succeeds exactly when it inserts only into L0, deletes nothing unless the group is destroyed, and its sub-level is the newest; it keeps every level and sub-level and appends one overlapping sub-level when it inserts runs |
| HummockVersionUpdate.ApplyGroupNeedsEpoch | src/storage/hummock_sdk/src/compaction_group/hummock_version_ext.rs:489-494 | a group's deltas apply only if the delta's committed epoch is not older than the version's |
| HummockVersionUpdate.ApplyVersionDeltaEpochs | src/storage/hummock_sdk/src/compaction_group/hummock_version_ext.rs:532-552 | the new version has the delta's id and epochs, the safe epoch never goes down, and with group deltas the committed epoch never goes down |
| HummockVersionUpdate.ApplyDeltaWithoutGroups | src/storage/hummock_sdk/src/compaction_group/hummock_version_ext.rs:427-554 | a delta without group deltas applies exactly when the safe epoch does not go down, and changes only the id and the epochs |
| HummockVersionUpdate.DeltaAfterVersionApplies | src/storage/hummock_sdk/src/compaction_group/hummock_version_ext.rs:962-972 | the empty delta built after a version follows it, applies to it, and only moves the id on by one |
| HummockVersionUpdate.ApplyGroupTouchesOnlyItsGroup | src/storage/hummock_sdk/src/compaction_group/hummock_version_ext.rs:474-530 | deltas without construct or table change need their group to exist, record no split, leave other groups unchanged, drop the group exactly when destroyed, and leave it the member ids its meta changes give, sorted |
| HummockVersionUpdate.ApplyGroupDestroys | src/storage/hummock_sdk/src/compaction_group/hummock_version_ext.rs:528-530 | a destroyed group is gone |
| HummockVersionUpdate.ApplyGroupCommitAppendsSubLevel | src/storage/hummock_sdk/src/compaction_group/hummock_version_ext.rs:495-523 | a commit with runs inserts into L0 only, as one new overlapping sub-level after all others, keeping L1..Ln |
| HummockVersionUpdate.ApplyGroupsFromKeepsGroups | src/storage/hummock_sdk/src/compaction_group/hummock_version_ext.rs:431-531 | the loop over groups keeps the set of groups and records no split when every delta only changes levels |
| HummockVersionUpdate.ApplyVersionDeltaKeepsGroups | src/storage/hummock_sdk/src/compaction_group/hummock_version_ext.rs:427-554 | a delta that only changes levels keeps the set of compaction groups and records no split |
| HummockVersionUpdate.ConstructGroupM | src/storage/hummock_sdk/src/compaction_group/hummock_version_ext.rs:434-450 | constructs the group with its configured levels and members and splits it off its parent |
| HummockVersionUpdate.ChangeGroupTablesM | src/storage/hummock_sdk/src/compaction_group/hummock_version_ext.rs:451-471 | splits the tables' runs off the origin group, moves them out of its member list, and appends them to the group's |
| HummockVersionUpdate.ApplyGroupM | src/storage/hummock_sdk/src/compaction_group/hummock_version_ext.rs:431-531 | the body of the loop over a delta's groups |
| HummockVersionUpdate.Version.constructor | src/storage/hummock_sdk/src/compaction_group/hummock_version_ext.rs:427-433 | a mutable version holding the given value |
| HummockVersionUpdate.Version.ApplyVersionDelta | src/storage/hummock_sdk/src/compaction_group/hummock_version_ext.rs:427-554 | the version becomes exactly what the delta's specification gives, with the split records returned, and fails exactly when that specification does |
| HummockQueries.Reverse | src/storage/hummock_sdk/src/compaction_group/hummock_version_ext.rs:141-152 | lists the sub-levels newest first |
| HummockQueries.RunObjectIds | src/storage/hummock_sdk/src/compaction_group/hummock_version_ext.rs:155-164 | one object id per run, in order |
| HummockQueries.ObjectIdsOfSpec | src/storage/hummock_sdk/src/compaction_group/hummock_version_ext.rs:155-164 | one id per run, and exactly the object ids of the levels' runs |
| HummockQueries.CombinedLevelsSpec | src/storage/hummock_sdk/src/compaction_group/hummock_version_ext.rs:141-152 | the combined levels are exactly the sub-levels and levels of every group |
| HummockQueries.GetObjectIdsSpec | src/storage/hummock_sdk/src/compaction_group/hummock_version_ext.rs:155-164 | the object id of every run of every group, once per run, and nothing else |
| HummockQueries.VersionObjectIds | src/storage/hummock_sdk/src/compaction_group/hummock_version_ext.rs:155-164 | visiting every group once, lists the object ids of the runs of every group of the version and nothing else |
| HummockQueries.NumLevelsSpec | src/storage/hummock_sdk/src/compaction_group/hummock_version_ext.rs:166-191 | zero exactly for a missing group; otherwise L0 plus the other levels |
| HummockQueries.AddGroupTables | src/storage/hummock_sdk/src/compaction_group/hummock_version_ext.rs:556-564 | every member table of the group is sent to it, other tables keep their entry |
| HummockQueries.LastListingSpec | src/storage/hummock_sdk/src/compaction_group/hummock_version_ext.rs:556-564 | the last listing group lists the table and no later group does; none exactly when no group lists it |
| HummockQueries.CompactionGroupInfoSpec | src/storage/hummock_sdk/src/compaction_group/hummock_version_ext.rs:556-564 | maps exactly the listed tables, each to the last visited group that lists it |
| HummockQueries.VersionCompactionGroupInfo | src/storage/hummock_sdk/src/compaction_group/hummock_version_ext.rs:556-564 | visiting every group once, maps exactly the member tables of the version, each to a group listing it, and a table only one group lists to that group |
| HummockQueries.BuildCompactionGroupInfo | src/storage/hummock_sdk/src/compaction_group/hummock_version_ext.rs:556-564 | the nested loop builds that map |
| HummockQueries.SstIdsCons | src/storage/hummock_sdk/src/compaction_group/hummock_version_ext.rs:386-411 | the ids of runs are the first run's id and those of the rest |
| HummockQueries.TakeRemovedLeft | src/storage/hummock_sdk/src/compaction_group/hummock_version_ext.rs:386-411 | the removed ids left over are exactly those no run has |
| HummockQueries.TakeRemovedCount | src/storage/hummock_sdk/src/compaction_group/hummock_version_ext.rs:386-411 | one object id is picked per removed id found |
| HummockQueries.TakeRemovedPicks | src/storage/hummock_sdk/src/compaction_group/hummock_version_ext.rs:386-411 | each picked object id belongs to a run whose id was removed |
| HummockQueries.TakeRemovedRuns | src/storage/hummock_sdk/src/compaction_group/hummock_version_ext.rs:386-411 | the loop over one level's runs picks those object ids |
| HummockQueries.TakeRemovedComplete | src/storage/hummock_sdk/src/compaction_group/hummock_version_ext.rs:396-399 | every run that is the first with a removed id has its object id picked |
| HummockQueries.TakeRemovedFirstPicks | src/storage/hummock_sdk/src/compaction_group/hummock_version_ext.rs:396-399 | each picked object id is that of the first run with a removed id |
| HummockQueries.TakeRemovedExact | src/storage/hummock_sdk/src/compaction_group/hummock_version_ext.rs:396-399 | one object id per removed id some run has, and exactly those of the first runs with such ids |
| HummockQueries.TakeRemovedAppend | src/storage/hummock_sdk/src/compaction_group/hummock_version_ext.rs:387-399 | scanning two stretches of runs in turn, the leftover ids passed on, equals scanning them together |
| HummockQueries.SubLevelDeletesFlat | src/storage/hummock_sdk/src/compaction_group/hummock_version_ext.rs:387-392 | scanning the sub-levels one by one equals scanning all L0 runs, oldest sub-level first |
| HummockQueries.SubLevelDeletesSpec | src/storage/hummock_sdk/src/compaction_group/hummock_version_ext.rs:387-392 | L0 yields one object id per removed id some sub-level has; an object id is yielded exactly when it belongs to the first L0 run with a removed id |
| HummockQueries.LevelDeletesSpec | src/storage/hummock_sdk/src/compaction_group/hummock_version_ext.rs:394-408 | on L1..Ln an object id is yielded exactly when it belongs to the first run with a pending id on the first level with a pending index |
| HummockQueries.GroupSstDeltaInfoDeletes | src/storage/hummock_sdk/src/compaction_group/hummock_version_ext.rs:367-408 | a group's deleted object ids are exactly those of the first runs with an id its deltas remove from that level, with one L0 id per removed L0 id found |
| HummockQueries.SstDeltaInfosSpec | src/storage/hummock_sdk/src/compaction_group/hummock_version_ext.rs:346-425 | one entry for each group whose deltas are all intra-level |
| HummockQueries.CollectSubLevelDeletes | src/storage/hummock_sdk/src/compaction_group/hummock_version_ext.rs:387-392 | the loop over L0's sub-levels is proved equal to `SubLevelDeletes`, whose meaning SubLevelDeletesSpec states |
| HummockQueries.CollectLevelDeletes | src/storage/hummock_sdk/src/compaction_group/hummock_version_ext.rs:394-408 | the loop over L1..Ln, taking each level's pending ids out of the map, is proved equal to `LevelDeletes`, whose meaning LevelDeletesSpec states |
| HummockQueries.BuildGroupSstDeltaInfo | src/storage/hummock_sdk/src/compaction_group/hummock_version_ext.rs:352-421 | the loops over one group's sub-levels and levels give that group's delta info |
| HummockQueries.BuildSstDeltaInfos | src/storage/hummock_sdk/src/compaction_group/hummock_version_ext.rs:346-425 | the loop over the delta's groups gives the delta infos, failing on a group the version lacks |
| HummockValidate.CanConcatCons | src/storage/hummock_sdk/src/compaction_group/hummock_version_ext.rs:1100-1120 | runs can be concatenated exactly when the tail can and the first two do not overlap |
| HummockValidate.AscendingCons | src/storage/hummock_sdk/src/compaction_group/hummock_version_ext.rs:1155-1166 | sub-level ids ascend exactly when the tail's do and the first is below the second |
| HummockValidate.DistinctAppend | src/storage/hummock_sdk/src/compaction_group/hummock_version_ext.rs:1168-1180 | two id lists joined have no repeat exactly when neither does and they share no id |
| HummockValidate.RunViolationsEmpty | src/storage/hummock_sdk/src/compaction_group/hummock_version_ext.rs:1090-1135 | a level's runs are reported on exactly when some run's table ids do not ascend strictly or a non-overlapping level's runs overlap |
| HummockValidate.LevelViolationsEmpty | src/storage/hummock_sdk/src/compaction_group/hummock_version_ext.rs:1070-1140 | a level is reported on exactly when it is not well formed |
| HummockValidate.SubLevelViolationsEmpty | src/storage/hummock_sdk/src/compaction_group/hummock_version_ext.rs:1155-1166 | the corrected sub-level check reports nothing exactly when every sub-level is well formed and their ids ascend |
| HummockValidate.NonL0ViolationsEmpty | src/storage/hummock_sdk/src/compaction_group/hummock_version_ext.rs:1146-1152 | L1..Ln are reported on exactly when some level is not well formed at its index |
| HummockValidate.DuplicateViolationsEmpty | src/storage/hummock_sdk/src/compaction_group/hummock_version_ext.rs:1168-1180 | member ids are reported on exactly when one repeats or was met in an earlier group, and every id is recorded |
| HummockValidate.GroupViolationsEmpty | src/storage/hummock_sdk/src/compaction_group/hummock_version_ext.rs:1058-1181 | a group is reported on exactly when it is not well formed or shares a member with an earlier group |
| HummockValidate.GroupsViolationsEmpty | src/storage/hummock_sdk/src/compaction_group/hummock_version_ext.rs:1058-1181 | the groups are reported on exactly when some group is ill formed or the member lists are not disjoint |
| HummockValidate.ViolationsEmptyIffWellFormed | src/storage/hummock_sdk/src/compaction_group/hummock_version_ext.rs:1049-1184 | visiting every group once, `validate_version` with the corrected sub-level check reports nothing exactly when the version is well formed; L0 is always present in the model |
| HummockValidate.AsWrittenFlagsAscendingSubLevels | src/storage/hummock_sdk/src/compaction_group/hummock_version_ext.rs:1155-1166 | the sub-level check as written reports the second of any two ascending sub-levels |
| HummockValidate.AsWrittenRejectsCommittedL0 | src/storage/hummock_sdk/src/compaction_group/hummock_version_ext.rs:1155-1166 | an L0 built by two commits (sub-levels 1 then 2) is reported by the check as written |
| HummockValidate.InitialGroupWellFormed | src/storage/hummock_sdk/src/compaction_group/hummock_version_ext.rs:718-743 | a freshly built group passes the checks |
| HummockValidate.ValidateLevel | src/storage/hummock_sdk/src/compaction_group/hummock_version_ext.rs:1070-1140 | the loop over a level's runs reports that level's violations |
| HummockValidate.CheckMembers | src/storage/hummock_sdk/src/compaction_group/hummock_version_ext.rs:1168-1180 | the loop over member ids reports the duplicates and records every id |
| HummockValidate.CheckSubLevels | src/storage/hummock_sdk/src/compaction_group/hummock_version_ext.rs:1155-1166 | the loop over sub-levels reports the corrected sub-level violations |
| HummockValidate.CheckNonL0Levels | src/storage/hummock_sdk/src/compaction_group/hummock_version_ext.rs:1146-1152 | the loop over L1..Ln reports their violations |
| HummockValidate.ValidateGroup | src/storage/hummock_sdk/src/compaction_group/hummock_version_ext.rs:1058-1181 | the body of the loop over groups |
| HummockValidate.ApplyCompactSstsKeepsGroupWellFormed | src/storage/hummock_sdk/src/compaction_group/hummock_version_ext.rs:613-694 | a compaction keeps a well-formed group well formed when no key range is inverted and the inserted runs' table ids ascend |
| HummockValidate.ApplyCompactSstsKeepsRangesValid | src/storage/hummock_sdk/src/compaction_group/hummock_version_ext.rs:613-694 | a compaction whose inserted runs have well-formed key ranges leaves none inverted in the group |
| HummockValidate.ValidateVersion | src/storage/hummock_sdk/src/compaction_group/hummock_version_ext.rs:1049-1184 | visiting every group once, reports exactly the violations of the corrected sub-level check, and reports none exactly for a well-formed version; L0 is always present in the model |
| PinnedVersion.PinChannel.constructor | src/storage/src/hummock/local_version/pinned_version.rs:167-186 | an open channel with nothing sent |
| PinnedVersion.PinChannel.Send | src/storage/src/hummock/local_version/pinned_version.rs:49-54 | an open channel gets the message; a closed one drops it |
| PinnedVersion.PinnedVersionGuard.constructor | src/storage/src/hummock/local_version/pinned_version.rs:45-61 | making a guard sends a pin of its version id |
| PinnedVersion.PinnedVersionGuard.Drop | src/storage/src/hummock/local_version/pinned_version.rs:64-72 | dropping a guard, once, sends an unpin of its version id |
| PinnedVersion.NewPinnedVersion | src/storage/src/hummock/local_version/pinned_version.rs:83-98 | the snapshot holds the version and pins its id |
| PinnedVersion.NewPinVersion | src/storage/src/hummock/local_version/pinned_version.rs:104-121 | pinning succeeds exactly for a version not older than the current one, and then gives a fresh snapshot of it |
| PinnedVersion.LevelsOfSpec | src/storage/src/hummock/local_version/pinned_version.rs:131-151 | on a snapshot `levels` never panics and lists the table's group's sub-levels newest first, then its other levels |
| PinnedVersion.LevelsOfUnlisted | src/storage/src/hummock/local_version/pinned_version.rs:135-151 | a table in no group's member list has no levels |
| PinnedVersion.LedgerTail | src/storage/src/hummock/local_version/pinned_version.rs:184-199 | the ledger without its first entry is valid and above that entry's id |
| PinnedVersion.LedgerCons | src/storage/src/hummock/local_version/pinned_version.rs:184-199 | an entry below a valid ledger with a positive count extends it |
| PinnedVersion.LookupAbove | src/storage/src/hummock/local_version/pinned_version.rs:237-250 | no id at or below a lower bound is found |
| PinnedVersion.PinAtAbove | src/storage/src/hummock/local_version/pinned_version.rs:206-213 | pinning an id above a bound keeps the ledger above it |
| PinnedVersion.UnpinAtAbove | src/storage/src/hummock/local_version/pinned_version.rs:237-250 | unpinning keeps the ledger above its bound |
| PinnedVersion.PinAtValid | src/storage/src/hummock/local_version/pinned_version.rs:206-213 | a pin keeps the ledger valid |
| PinnedVersion.UnpinAtValid | src/storage/src/hummock/local_version/pinned_version.rs:237-250 | an unpin keeps the ledger valid |
| PinnedVersion.PinAtSpec | src/storage/src/hummock/local_version/pinned_version.rs:206-213 | a pin adds one to the id's count (starting at one) with the new time, and leaves every other id alone |
| PinnedVersion.UnpinAtSpec | src/storage/src/hummock/local_version/pinned_version.rs:237-250 | an unpin of an unknown id changes nothing; otherwise one pin fewer, the entry gone at zero, other ids alone |
| PinnedVersion.ExpireSpec | src/storage/src/hummock/local_version/pinned_version.rs:189-199 | expiry drops a prefix of entries pinned at least the maximum duration ago, never the last entry, and stops at the first recent one |
| PinnedVersion.ApplyPinsValid | src/storage/src/hummock/local_version/pinned_version.rs:200-229 | applying the collected pins keeps the ledger valid |
| PinnedVersion.ApplyUnpinsValid | src/storage/src/hummock/local_version/pinned_version.rs:237-250 | applying the collected unpins keeps the ledger valid |
| PinnedVersion.WorkerStepSpec | src/storage/src/hummock/local_version/pinned_version.rs:187-276 | the unpin RPC is made exactly when something is to be unpinned, the channel is open and some version is in use, with the smallest id in use; failure keeps the need to unpin; the ledger stays valid |
| PinnedVersion.PinnedVersionWorker.constructor | src/storage/src/hummock/local_version/pinned_version.rs:182-184 | the worker starts with an empty ledger and nothing to unpin |
| PinnedVersion.PinnedVersionWorker.Step | src/storage/src/hummock/local_version/pinned_version.rs:187-276 | one loop iteration leaves the state, RPC argument and stop flag of the step specification |
| HummockIterator.SeekStart | src/storage/src/hummock/iterator/mod.rs:394-405 | the container's seek lands on the first entry whose table key is not below the target |
| HummockIterator.FromRustIterator.constructor | src/storage/src/hummock/iterator/mod.rs:340-347 | a new iterator is not positioned |
| HummockIterator.FromRustIterator.IsValid | src/storage/src/hummock/iterator/mod.rs:380-382 | valid exactly when there is a current entry |
| HummockIterator.FromRustIterator.Key | src/storage/src/hummock/iterator/mod.rs:364-373 | the current table key with the iterator's table id and epoch |
| HummockIterator.FromRustIterator.Value | src/storage/src/hummock/iterator/mod.rs:375-378 | the current value |
| HummockIterator.FromRustIterator.Next | src/storage/src/hummock/iterator/mod.rs:353-362 | moves one entry on, becoming invalid past the last |
| HummockIterator.FromRustIterator.Rewind | src/storage/src/hummock/iterator/mod.rs:384-392 | at the first entry, invalid for an empty container |
| HummockIterator.FromRustIterator.Seek | src/storage/src/hummock/iterator/mod.rs:394-439 | at the first entry whose full key is not below the target; exhausted for a smaller table id, rewound for a larger one |
| HummockIterator.UnionIsValid | src/storage/src/hummock/iterator/mod.rs:227-234 | forwards `is_valid` to the held iterator |
| HummockIterator.UnionKey | src/storage/src/hummock/iterator/mod.rs:209-216 | forwards `key` |
| HummockIterator.UnionValue | src/storage/src/hummock/iterator/mod.rs:218-225 | forwards `value` |
| HummockIterator.UnionNext | src/storage/src/hummock/iterator/mod.rs:200-207 | forwards `next` |
| HummockIterator.UnionRewind | src/storage/src/hummock/iterator/mod.rs:236-243 | forwards `rewind` |
| HummockIterator.UnionSeek | src/storage/src/hummock/iterator/mod.rs:245-252 | forwards `seek`, landing on the lower bound of the target |
| EstimatedLru.SizeSumAppend | src/common/src/estimate_size/collections/lru.rs:90-99 | the size of two entry lists together is the sum of their sizes |
| EstimatedLru.SizeSumRemove | src/common/src/estimate_size/collections/lru.rs:42-46 | taking one entry out lowers the size by exactly its size |
| EstimatedLru.Find | src/common/src/estimate_size/collections/lru.rs:90-99 | finds the position of the key, none exactly when it is absent |
| EstimatedLru.PushedSpec | src/common/src/estimate_size/collections/lru.rs:90-99 | pushing keeps keys distinct, puts the new pair most recent, and grows the cache exactly when nothing is displaced |
| EstimatedLru.EvictBelowSpec | src/common/src/estimate_size/collections/lru.rs:42-46 | eviction drops a least-recently-used prefix of entries older than the epoch and stops at the first entry that is not |
| EstimatedLru.EstimatedLruCache.constructor | src/common/src/estimate_size/collections/lru.rs:34-40 | an empty cache with a zero counter, which is accurate |
| EstimatedLru.EstimatedLruCache.Push | src/common/src/estimate_size/collections/lru.rs:90-99 | returns the displaced pair, updates the entries, and adds the new pair's size minus the displaced one's, keeping an accurate counter accurate |
| EstimatedLru.EstimatedLruCache.EvictByEpoch | src/common/src/estimate_size/collections/lru.rs:42-46 | pops exactly the oldest entries of epochs before the given one, takes their summed size off the counter (stopping at zero), and keeps an accurate counter accurate |
| EstimatedLru.EstimatedLruCache.UpdateEpoch | src/common/src/estimate_size/collections/lru.rs:48-50 | changes only the current epoch |
| EstimatedLru.EstimatedLruCache.Clear | src/common/src/estimate_size/collections/lru.rs:117-119 | as written: the entries go but the counter stays, so a non-zero counter becomes inaccurate |
| EstimatedLru.EstimatedLruCache.ClearAndReset | src/common/src/estimate_size/collections/lru.rs:117-119 | as intended: the entries go and the counter is zero, hence accurate |
| EstimatedLru.EstimatedLruCache.Len | src/common/src/estimate_size/collections/lru.rs:109-111 | the number of entries |
| EstimatedLru.EstimatedLruCache.IsEmpty | src/common/src/estimate_size/collections/lru.rs:113-115 | empty exactly when there are no entries |
| EstimatedLru.EstimatedLruCache.EstimatedHeapSize | src/common/src/estimate_size/collections/lru.rs:154-158 | the counter, which is the summed entry sizes while accurate |
| WorkerNodeManagement.FilterMembers | src/frontend/src/scheduler/worker_node_manager.rs:81-104 | filtering keeps exactly the elements satisfying the predicate |
| WorkerNodeManagement.FilterAppend | src/frontend/src/scheduler/worker_node_manager.rs:81-104 | filtering keeps order |
| WorkerNodeManagement.NodeListsSpec | src/frontend/src/scheduler/worker_node_manager.rs:81-104 | the three lists hold exactly the compute nodes, the serving ones, and the streaming ones |
| WorkerNodeManagement.AddUnitsSpec | src/frontend/src/scheduler/worker_node_manager.rs:110-118 | the node's parallel units are sent to it, other units keep their worker |
| WorkerNodeManagement.PuToWorkerSpec | src/frontend/src/scheduler/worker_node_manager.rs:110-118 | every parallel unit of a node is mapped, only those are, each to a node that owns it |
| WorkerNodeManagement.PuToWorkerLastWins | src/frontend/src/scheduler/worker_node_manager.rs:110-118 | a parallel unit listed by several nodes maps to the last of them |
| WorkerNodeManagement.WorkerNodeManager.constructor | src/frontend/src/scheduler/worker_node_manager.rs:55-66 | no workers, mappings or masks, and a consistent cache |
| WorkerNodeManagement.WorkerNodeManager.Mock | src/frontend/src/scheduler/worker_node_manager.rs:68-79 | the given workers with a consistent cache |
| WorkerNodeManagement.WorkerNodeManager.AddWorkerNode | src/frontend/src/scheduler/worker_node_manager.rs:106-120 | as written: a known id replaces the first node with that id, a new one is appended and the cache gains its units |
| WorkerNodeManagement.StaleCacheAfterUpdate | src/frontend/src/scheduler/worker_node_manager.rs:106-120 | updating a known worker's parallel units leaves the cache pointing at the old units |
| WorkerNodeManagement.WorkerNodeManager.AddWorkerNodeRebuilt | src/frontend/src/scheduler/worker_node_manager.rs:106-120 | as intended: the same worker list with the cache consistent on both paths |
| WorkerNodeManagement.WorkerNodeManager.RemoveWorkerNode | src/frontend/src/scheduler/worker_node_manager.rs:122-128 | every node with the id goes, the others stay in order, the cache stays consistent |
| WorkerNodeManagement.WorkerNodeManager.Refresh | src/frontend/src/scheduler/worker_node_manager.rs:130-154 | workers and both mappings are replaced, the cache is rebuilt |
| WorkerNodeManagement.WorkerNodeManager.GetWorkersByParallelUnitIds | src/frontend/src/scheduler/worker_node_manager.rs:156-177 | fails exactly on no ids or an unknown one; otherwise the owner of each unit, in order |
| WorkerNodeManagement.WorkerNodeManager.GetStreamingFragmentMapping | src/frontend/src/scheduler/worker_node_manager.rs:179-190 | the fragment's streaming mapping, an error exactly when it has none |
| WorkerNodeManagement.WorkerNodeManager.InsertStreamingFragmentMapping | src/frontend/src/scheduler/worker_node_manager.rs:192-203 | adds a mapping, panicking exactly when the fragment already has one, and changes nothing else |
| WorkerNodeManagement.WorkerNodeManager.UpdateStreamingFragmentMapping | src/frontend/src/scheduler/worker_node_manager.rs:205-215 | inserts the mapping in every case, then panics exactly when the fragment had none before |
| WorkerNodeManagement.WorkerNodeManager.RemoveStreamingFragmentMapping | src/frontend/src/scheduler/worker_node_manager.rs:217-224 | removes a mapping, panicking exactly when the fragment has none |
| WorkerNodeManagement.WorkerNodeManager.ServingFragmentMapping | src/frontend/src/scheduler/worker_node_manager.rs:226-235 | the fragment's serving mapping, an error exactly when it has none |
| WorkerNodeManagement.WorkerNodeManager.SetServingFragmentMapping | src/frontend/src/scheduler/worker_node_manager.rs:237-244 | the serving mappings are replaced |
| WorkerNodeManagement.WorkerNodeManager.UpsertServingFragmentMapping | src/frontend/src/scheduler/worker_node_manager.rs:246-260 | every given mapping overwrites or adds, others stay |
| WorkerNodeManagement.WorkerNodeManager.RemoveServingFragmentMapping | src/frontend/src/scheduler/worker_node_manager.rs:262-271 | the listed fragments lose their serving mapping |
| WorkerNodeManagement.WorkerNodeManager.MaskWorkerNode | src/frontend/src/scheduler/worker_node_manager.rs:277-291 | the worker joins the mask, nothing else changes |
| WorkerNodeManagement.UnmaskedMembers | src/frontend/src/scheduler/worker_node_manager.rs:388-397 | keeps exactly the workers whose id is not masked; an empty mask keeps all |
| WorkerNodeManagement.UnmaskedLength | src/frontend/src/scheduler/worker_node_manager.rs:388-397 | masking never lengthens the list |
| WorkerNodeManagement.ApplyWorkerNodeMaskSpec | src/frontend/src/scheduler/worker_node_manager.rs:388-397 | masking never empties a non-empty list: if every worker is masked all are kept, otherwise exactly the unmasked ones |
| WorkerNodeManagement.NextRandomWorker | src/frontend/src/scheduler/worker_node_manager.rs:376-386 | an error exactly when there is no candidate; otherwise one of the candidates |
| WorkerNodeManagement.NextRandomWorkerIsLive | src/frontend/src/scheduler/worker_node_manager.rs:376-397 | the drawn worker is a compute node of the list, streaming under barrier reads and serving otherwise |
| WorkerNodeManagement.WorkerNodeCountSpec | src/frontend/src/scheduler/worker_node_manager.rs:317-324 | without barrier reads the count is zero exactly when there is no serving worker, never exceeds their number, and equals it with no mask |
| WorkerNodeManagement.SumParallelUnitsSpec | src/frontend/src/scheduler/worker_node_manager.rs:326-336 | the parallel units of workers add up to zero exactly when none has one, and to at least one per worker when each has some |
| WorkerNodeManagement.ScheduleUnitCountSpec | src/frontend/src/scheduler/worker_node_manager.rs:326-336 | zero exactly when no candidate worker has a parallel unit; at least the worker node count when every worker has one |
| RowSeqScan.NewScanRange | src/batch/src/executor/row_seq_scan.rs:78-123 | fails exactly when the equality prefix is longer than the key, or as long while a bound is given; otherwise keeps the prefix and each given bound with its kind, and is full exactly without bounds |
| RowSeqScan.NewScanRanges | src/batch/src/executor/row_seq_scan.rs:237-247 | builds every range in turn, failing exactly when one fails |
| RowSeqScan.PlanScanRanges | src/batch/src/executor/row_seq_scan.rs:237-247 | no range in the plan means one full range |
| RowSeqScan.PartitionSpec | src/batch/src/executor/row_seq_scan.rs:331-333 | point gets and range scans together are the ranges, point gets exactly those covering the whole key |
| RowSeqScan.RangeBounds | src/batch/src/executor/row_seq_scan.rs:411-468 | fails exactly when the prefix is as long as the key; bounds swap for a descending column, keep their kind, and an open side facing a bounded one excludes NULL exactly when NULLs sort there |
| RowSeqScan.ChunkSizeAsWritten | src/batch/src/executor/row_seq_scan.rs:252-256 | as written: a 32-bit value never above the configured size, zero for a limit that is a multiple of 2^32 |
| RowSeqScan.ChunkSizeAsWrittenTruncates | src/batch/src/executor/row_seq_scan.rs:252-256 | a limit of 2^32 rows gives chunks of no row |
| RowSeqScan.ChunkSize | src/batch/src/executor/row_seq_scan.rs:252-256 | as intended: the smaller of the limit and the configured size, positive when both are, and the written value when nothing wraps |
| RowSeqScan.PointGetChunksSpec | src/batch/src/executor/row_seq_scan.rs:336-364 | the point gets' chunks carry every row found, none is empty, and all but the last are full |
| RowSeqScan.TakeUntilLimitSpec | src/batch/src/executor/row_seq_scan.rs:336-386 | the output is a prefix of the chunks, stays below the limit before its last chunk, stops early only at the limit, and is everything without a limit |
| RowSeqScan.TakeUntilLimitStep | src/batch/src/executor/row_seq_scan.rs:336-386 | one chunk yielded from a position |
| RowSeqScan.TakeUntilLimitCons | src/batch/src/executor/row_seq_scan.rs:336-386 | yielding one chunk in front of the rest |
| RowSeqScan.PointGetChunksStep | src/batch/src/executor/row_seq_scan.rs:336-364 | one point-get row through the chunk builder |
| RowSeqScan.PendingStep | src/batch/src/executor/row_seq_scan.rs:336-364 | what is left to yield before and after one point get |
| RowSeqScan.YieldPointGets | src/batch/src/executor/row_seq_scan.rs:336-364 | the point-get loop yields its part of the limited output and stops only at the limit |
| RowSeqScan.FlushBuilder | src/batch/src/executor/row_seq_scan.rs:358-364 | the last partial chunk is yielded as the limited output says |
| RowSeqScan.YieldRangeScans | src/batch/src/executor/row_seq_scan.rs:366-386 | the range-scan loop yields the rest of the limited output |
| RowSeqScan.DoExecute | src/batch/src/executor/row_seq_scan.rs:303-387 | an ordered scan needs exactly one range; a zero limit yields nothing; otherwise the point gets' then the range scans' chunks up to the limit |
| PgProtocolStrings.StripNul | src/utils/pgwire/src/pg_protocol.rs:154-161 | drops exactly one trailing zero byte, if there is one |
| PgProtocolStrings.StripNulRoundTrip | src/utils/pgwire/src/pg_protocol.rs:154-161 | a NUL-terminated string reads back as itself |
| PgProtocolStrings.Truncated | src/utils/pgwire/src/pg_protocol.rs:1093-1145 | text that fits is kept; otherwise its first budget bytes and the marker |
| PgProtocolStrings.WriteAllFinished | src/utils/pgwire/src/pg_protocol.rs:1099-1102 | a finished formatter ignores every write |
| PgProtocolStrings.WriteAllTruncates | src/utils/pgwire/src/pg_protocol.rs:1099-1145 | whatever the pieces, a formatter that does not panic writes the text truncated to its budget |
| PgProtocolStrings.FormatOnePieceAsWritten | src/utils/pgwire/src/pg_protocol.rs:1099-1114 | as written: panics exactly when the text does not fit and the budget falls inside a character |
| PgProtocolStrings.TruncatingInsideCharacterPanics | src/utils/pgwire/src/pg_protocol.rs:1099-1114 | "é" with a one-byte budget panics |
| PgProtocolStrings.FloorCharBoundary | src/utils/pgwire/src/pg_protocol.rs:1103-1108 | the last character boundary at or before the position |
| PgProtocolStrings.WriteStrFloorSpec | src/utils/pgwire/src/pg_protocol.rs:1099-1114 | as intended: agrees with the written write where that does not panic, and otherwise keeps the longest whole-character prefix within budget |
| PgProtocolStrings.TruncatedFormatter.constructor | src/utils/pgwire/src/pg_protocol.rs:1119-1145 | a formatter with the budget, unfinished, nothing written |
| PgProtocolStrings.TruncatedFormatter.WriteStr | src/utils/pgwire/src/pg_protocol.rs:1099-1114 | panics exactly as the written step does; otherwise leaves its state |
| PgProtocolStrings.FormatTruncated | src/utils/pgwire/src/pg_protocol.rs:1119-1145 | panics exactly as the pieces' writes do; otherwise the text truncated to its budget |
| PgProtocol.GetStatement | src/utils/pgwire/src/pg_protocol.rs:870-893 | the named or unnamed statement, an error exactly when it is missing |
| PgProtocol.GetPortal | src/utils/pgwire/src/pg_protocol.rs:852-868 | the named or unnamed portal, an error exactly when it is missing |
| PgProtocol.ParamTypes | src/utils/pgwire/src/pg_protocol.rs:637-655 | fails exactly on an unknown non-zero type id; otherwise one type per id, none for 0 |
| PgProtocol.ParseStep | src/utils/pgwire/src/pg_protocol.rs:615-679 | Parse touches no portal, cache or flag, and only the parsed name's dependency list |
| PgProtocol.ParseStepSpec | src/utils/pgwire/src/pg_protocol.rs:615-679 | Parse fails exactly on a stored named statement, a SQL error, more than one statement, an unknown type or a session error; success stores the statement with an empty list; a failed unnamed Parse clears the unnamed statement |
| PgProtocol.BindStep | src/utils/pgwire/src/pg_protocol.rs:681-725 | Bind touches no statement or flag |
| PgProtocol.BindStepSpec | src/utils/pgwire/src/pg_protocol.rs:681-725 | on a reachable state Bind never panics, fails exactly on a stored portal name, a missing statement, a format or session error and then changes nothing; success stores the portal, lists it last under its statement, with no cache |
| PgProtocol.InitialStateInv | src/utils/pgwire/src/pg_protocol.rs:289-350 | the new connection satisfies the invariant |
| PgProtocol.ExecuteStep | src/utils/pgwire/src/pg_protocol.rs:727-769 | as written: Execute touches only the result cache |
| PgProtocol.ExecuteStepCheckedSpec | src/utils/pgwire/src/pg_protocol.rs:727-769 | as intended: on a reachable state never panics, agrees with the written one on named portals, fails on a missing portal, and keeps results cached exactly while not drained |
| PgProtocol.DescribeStep | src/utils/pgwire/src/pg_protocol.rs:771-818 | Describe changes nothing, panics exactly on a kind other than S and P, and succeeds exactly when the described object exists and the session answers |
| PgProtocol.RemovePortal | src/utils/pgwire/src/pg_protocol.rs:843-850 | the portal and its cache go, nothing else |
| PgProtocol.RemovePortals | src/utils/pgwire/src/pg_protocol.rs:831-835 | removing portals in turn keeps the flags |
| PgProtocol.RemovePortalsSpec | src/utils/pgwire/src/pg_protocol.rs:831-850 | exactly the listed portals and their caches go, no statement is touched |
| PgProtocol.DropStatement | src/utils/pgwire/src/pg_protocol.rs:824-836 | the statement and its list go, other statements and all portals stay |
| PgProtocol.CloseStep | src/utils/pgwire/src/pg_protocol.rs:820-841 | Close keeps the flags |
| PgProtocol.CloseStepSpec | src/utils/pgwire/src/pg_protocol.rs:820-841 | Close panics exactly on a kind other than S and P; closing a statement removes it, its list and exactly its listed portals; closing a portal removes just it |
| PgProtocol.AfterHandler | src/utils/pgwire/src/pg_protocol.rs:306-345 | a failing handler sets the ignore-until-sync flag unless it panicked |
| PgProtocol.ProcessStep | src/utils/pgwire/src/pg_protocol.rs:289-350 | while ignoring, only Sync is processed; Sync clears the flag; Terminate and health check end the connection; a non-panic failure sets the flag |
| PgProtocol.ParseStepInv | src/utils/pgwire/src/pg_protocol.rs:615-679 | Parse keeps the invariant |
| PgProtocol.BindStepInv | src/utils/pgwire/src/pg_protocol.rs:681-725 | Bind keeps the invariant |
| PgProtocol.ExecuteStepInv | src/utils/pgwire/src/pg_protocol.rs:727-769 | Execute keeps the invariant |
| PgProtocol.CloseStepInv | src/utils/pgwire/src/pg_protocol.rs:820-841 | Close keeps the invariant |
| PgProtocol.ProcessStepInv | src/utils/pgwire/src/pg_protocol.rs:289-350 | every message keeps the invariant, so it holds on every reachable state |
| PgProtocol.ResumingUnnamedPortalPanics | src/utils/pgwire/src/pg_protocol.rs:733-740 | Parse, Bind, Execute leaving rows, Execute again on the unnamed portal: the last one panics |
| PgProtocol.Without | src/utils/pgwire/src/pg_protocol.rs:843-850 | the list without one name |
| PgProtocol.CloseStatementKeepsOtherPortals | src/utils/pgwire/src/pg_protocol.rs:820-841 | with every portal listed once, closing a statement keeps the portals of other statements |
| PgProtocol.RebindTraceParses | src/utils/pgwire/src/pg_protocol.rs:615-679 | the first two Parse messages of the trace succeed with the states shown |
| PgProtocol.RebindTraceBinds | src/utils/pgwire/src/pg_protocol.rs:681-725 | the Bind, Close and Bind of the trace succeed with the states shown |
| PgProtocol.ClosingStatementClosesReboundPortal | src/utils/pgwire/src/pg_protocol.rs:820-850 | a portal re-bound from statement b is closed when statement a closes |
| PgProtocol.RemovePortalUnlisting | src/utils/pgwire/src/pg_protocol.rs:843-850 | as intended: the closed portal also leaves every dependency list, other names stay listed |
| PgProtocol.ListedOnceShrinks | src/utils/pgwire/src/pg_protocol.rs:716-721 | shrinking the lists keeps every portal listed once |
| PgProtocol.ParseKeepsListedOnce | src/utils/pgwire/src/pg_protocol.rs:615-679 | Parse keeps every portal listed once |
| PgProtocol.CloseUnlistingKeepsListedOnce | src/utils/pgwire/src/pg_protocol.rs:820-850 | the corrected Close keeps every portal listed once |
| PgProtocol.BindUnlistingKeepsListedOnce | src/utils/pgwire/src/pg_protocol.rs:716-721 | the corrected Bind keeps every portal listed once |
| PgConnection.Connection.constructor | src/utils/pgwire/src/pg_protocol.rs:289-350 | a new connection in the initial state |
| PgConnection.Connection.ProcessParseMsg | src/utils/pgwire/src/pg_protocol.rs:615-679 | leaves the state and result Parse's step gives |
| PgConnection.Connection.ProcessBindMsg | src/utils/pgwire/src/pg_protocol.rs:681-725 | leaves the state and result Bind's step gives |
| PgConnection.Connection.ProcessExecuteMsg | src/utils/pgwire/src/pg_protocol.rs:727-769 | leaves the state and result Execute's step gives |
| PgConnection.Connection.ProcessDescribeMsg | src/utils/pgwire/src/pg_protocol.rs:771-818 | changes nothing and returns Describe's result |
| PgConnection.Connection.RemovePortalMsg | src/utils/pgwire/src/pg_protocol.rs:843-850 | removes the portal and its cache |
| PgConnection.Connection.ProcessCloseMsg | src/utils/pgwire/src/pg_protocol.rs:820-841 | leaves the state Close's step gives, removing listed portals one by one |
| PgConnection.Connection.Process | src/utils/pgwire/src/pg_protocol.rs:289-350 | leaves the state and result of one message's step |
| WindowFuncKinds.FromProtobuf | src/expr/core/src/window_function/kind.rs:38-60 | a general type succeeds exactly when known and not Unspecified, giving the same-named kind; an aggregate type succeeds exactly when known and its kind reads, giving that aggregate; errors are passed on |
| WindowFuncKinds.FromProtobufRoundTrip | src/expr/core/src/window_function/kind.rs:38-60 | every general kind is read back from its own protobuf type |
| WindowFuncKinds.IsRankSpec | src/expr/core/src/window_function/kind.rs:64-66 | a read kind ranks exactly when it comes from RowNumber, Rank or DenseRank |

## Left out

- Level operations are modelled on values: functions from levels to levels, not updates in place of a `&mut Level`.
- HummockVersionUpdate.Version.ApplyVersionDelta: after a panic nothing is promised about the version. The source would unwind with the version part-way updated.
- u64 ids and epochs are unbounded naturals. `U64_MAX` is kept only where it is a sentinel, as the sub-level id that inserts nothing.
- Table watermarks (`apply_new_table_watermarks`, `clear_stale_epoch_watermark`) are not part of this model.
- Key ranges are pairs of integers, and `can_concat` compares them as integers. Byte-string keys and the exclusive right bound are not modelled.
- HashMap iteration order is an explicit `order` sequence of group ids, given as an input. Where the whole version is meant, `order` is required to list every group exactly once (`Enumerates`).
- HummockSplit.BranchIntoL0Spec: assumes the sub-level id is not `U64_MAX`. `insert_new_sub_level` treats that id as "insert nothing", so the branches would be dropped.
- HummockSplit.InitWithParentGroupL0Runs: assumes no sub-level of the parent has the id `U64_MAX`. `insert_new_sub_level` treats that id as "insert nothing", so such a sub-level's branches would be dropped.
- Logging, metrics and `debug_assert!` are left out, including `insert_new_sub_level`'s checks of the hint.
- `INVALID_VERSION_ID` is taken as 0.
- The pinned-version worker: the tick interval, the retry backoff and sleeping are not modelled. The RPC outcome is an input. The channel's contents for one iteration are an inbox sequence.
- `EstimatedLruCache`:
  - The inner `LruCache` is a sequence of entries, least recently used first.
  - `KvSize` is a size function on key and value.
  - `MutGuard` and the operations `get`, `peek_mut`, `iter_mut`, `values`, `contains` and `current_epoch` are not modelled.
- The worker node manager:
  - `get_pu_to_worker_mapping` lives in `worker_util`, which is not part of this model. PuToWorker takes it to build the map node by node, so when two nodes list the same parallel unit the later node wins.
  - `fragment_mapping` and `place_vnode` are not part of this model.
  - Unmasking after the timer is not modelled.
  - The random choice is a `draw` input.
- The row sequential scan:
  - Datum deserialisation and its failure path are not modelled.
  - `StorageTable` and `DataChunkBuilder` are represented by what they return: per-point-get found flags and per-range chunk sizes.
  - The order of `select_all` over range streams is an input.
- The Postgres wire protocol:
  - UTF-8 decoding in `cstr_to_str` and its `unwrap` are not modelled.
  - Socket writes, the final flush and ReadyForQuery are not modelled.
  - TLS, startup, passwords, simple query and cancel are represented by `Other` with their outcome.
  - `do_process`'s handling of fatal errors and closing the connection are not modelled.
  - The session's parse, bind, execute and describe are message outcomes.
  - Draining a result cache is the `consumed` outcome.
  - Reading the formats is the `formats` outcome.
  - Formatter write errors are not modelled.
  - Debug versus Display formatting is given as the written pieces.
- HummockQueries.SstDeltaInfosSpec: states only how many entries there are. Each entry is `GroupSstDeltaInfo` of its group by the definition of `SstDeltaInfosFrom`, and GroupSstDeltaInfoDeletes states that entry's deleted object ids.
- HummockQueries.LevelDeletesSpec: states which object ids L1..Ln yield, not how many times each appears. Two first runs may share an object id, so membership does not fix the count; the L0 part's count is stated by SubLevelDeletesSpec.
- HummockTypes.Levels: L0 is always present. The source holds it as an optional field, so the "level0 not exist" report of `validate_version` and the panics of `level_iter` and `get_level0` on a missing L0 are not modelled. ViolationsEmptyIffWellFormed and ValidateVersion therefore cover every check except that one.
- WindowFuncKinds.FromProtobuf: the protobuf `try_from` conversions and `AggKind::from_protobuf` are function parameters.
- HummockIterator: the merge and user iterators are not part of this model. `collect_local_statistic` and boxed delegation are not modelled either.

## Findings

| source | as written | input that shows it | evidently intended | confidence | as-written member | corrected member |
|---|---|---|---|---|---|---|
| src/storage/hummock_sdk/src/compaction_group/hummock_version_ext.rs:1155-1166 | the previous sub-level id starts at `u64::MAX` and a sub-level is reported when its id is `>=` the previous one | an L0 with sub-levels 1 then 2, as two commits build it | sub-level ids ascend, so report an id that is not above the previous one | not executed | HummockValidate.AsWrittenFlagsAscendingSubLevels | HummockValidate.ViolationsEmptyIffWellFormed |
| src/common/src/estimate_size/collections/lru.rs:117-119 | `clear` empties the inner cache but leaves `kv_heap_size` | push any pair of non-zero size, then clear | the counter drops to zero with the entries | not executed | EstimatedLru.EstimatedLruCache.Clear | EstimatedLru.EstimatedLruCache.ClearAndReset |
| src/frontend/src/scheduler/worker_node_manager.rs:106-120 | updating a known worker replaces it but does not rebuild `pu_to_worker` | worker 1 with unit 7, updated to unit 8 | the cache is rebuilt on both paths | not executed | WorkerNodeManagement.StaleCacheAfterUpdate | WorkerNodeManagement.WorkerNodeManager.AddWorkerNodeRebuilt |
| src/batch/src/executor/row_seq_scan.rs:252-256 | `limit as u32` wraps before the minimum is taken | limit 2^32 with chunk size 1024 gives chunks of 0 rows | the smaller of the limit and the configured size | not executed | RowSeqScan.ChunkSizeAsWrittenTruncates | RowSeqScan.ChunkSize |
| src/utils/pgwire/src/pg_protocol.rs:1099-1114 | `&s[0..remaining]` slices a `str` at a byte count | "é" (bytes C3 A9) with a budget of 1 byte panics | cut at the last character boundary within the budget | not executed | PgProtocolStrings.TruncatingInsideCharacterPanics | PgProtocolStrings.WriteStrFloorSpec |
| src/utils/pgwire/src/pg_protocol.rs:733-740 | resuming a portal with cached results asserts that the named store holds it | Parse, Bind and Execute the unnamed portal leaving rows, then Execute it again | the unnamed portal is resumed too | not executed | PgProtocol.ResumingUnnamedPortalPanics | PgProtocol.ExecuteStepCheckedSpec |
| src/utils/pgwire/src/pg_protocol.rs:820-850 | a closed portal stays on its statement's dependency list | Parse a and b, Bind p from a, Close p, Bind p from b, Close statement a: p is closed | a portal is listed only under the statement it is bound from | not executed | PgProtocol.ClosingStatementClosesReboundPortal | PgProtocol.RemovePortalUnlisting |
