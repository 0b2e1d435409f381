/** Splitting a compaction group: the runs of a parent group that hold
    tables moving to a child group are branched into the child, with new run
    ids allocated one after another from a given start id. */
module HummockSplit {
  import opened Wrappers
  import opened HummockTypes
  import opened HummockLevels

  // The messages of the errors and panics modelled below.
  const CHILD_LEVEL_NOT_CONCAT: string := "sstables of the child level are not concat-able"
  const CHILD_LEVEL_OUT_OF_RANGE: string := "child level index out of range"
  const SPLIT_GROUPS_MISSING: string := "parent and child must be two existing groups"

  /** Some table of the run moves to the child group. */
  predicate Intersects(t: SstableInfo, member: set<nat>) {
    exists id | id in t.tableIds :: id in member
  }

  /** Every table of the run moves to the child group. */
  predicate OwnedBy(t: SstableInfo, member: set<nat>) {
    forall id | id in t.tableIds :: id in member
  }

  /** A trivial split hands the whole run to the child instead of sharing it. */
  predicate IsTrivial(t: SstableInfo, member: set<nat>, allowTrivial: bool) {
    allowTrivial && OwnedBy(t, member)
  }

  /** The outcome of splitting a list of runs: the parent's runs after the
      split, the split records, the branched runs for the child, and the next
      id to allocate. */
  datatype LevelSplit = LevelSplit(
    runs: seq<SstableInfo>,
    splits: seq<SstSplitInfo>,
    branches: seq<SstableInfo>,
    nextId: nat)

  /** Splitting one run. The branch takes the next id and keeps every table
      id; a trivial split clears the parent run's tables, any other split
      gives the parent run the id after the branch's. */
  function SplitRun(t: SstableInfo, member: set<nat>, allowTrivial: bool, nextId: nat): LevelSplit {
    if !Intersects(t, member) then LevelSplit([t], [], [], nextId)
    else
      var branch := t.(sstId := nextId);
      var trivial := IsTrivial(t, member, allowTrivial);
      var parent := if trivial then t.(tableIds := []) else t.(sstId := nextId + 1);
      LevelSplit([parent], [SstSplitInfo(t.objectId, nextId, t.sstId, parent.sstId)], [branch],
                 if trivial then nextId + 1 else nextId + 2)
  }

  /** Splitting the runs of one level, first to last. */
  function SplitRuns(runs: seq<SstableInfo>, member: set<nat>, allowTrivial: bool, start: nat): (r: LevelSplit)
    ensures |r.runs| == |runs| && |r.splits| == |r.branches|
  {
    if runs == [] then LevelSplit([], [], [], start)
    else
      var acc := SplitRuns(runs[..|runs| - 1], member, allowTrivial, start);
      var step := SplitRun(runs[|runs| - 1], member, allowTrivial, acc.nextId);
      LevelSplit(acc.runs + step.runs, acc.splits + step.splits, acc.branches + step.branches, step.nextId)
  }

  /** `split_sst_info_for_level`: walks the level's runs, branching each run
      that holds a moving table. */
  method SplitSstInfoForLevel(member: set<nat>, allowTrivial: bool, level: Level, newSstId: nat)
    returns (level': Level, splits: seq<SstSplitInfo>, inserts: seq<SstableInfo>, nextId: nat)
    ensures var s := SplitRuns(level.tableInfos, member, allowTrivial, newSstId);
      && level' == level.(tableInfos := s.runs)
      && splits == s.splits && inserts == s.branches && nextId == s.nextId
  {
    var runs := level.tableInfos;
    var out: seq<SstableInfo> := [];
    splits, inserts, nextId := [], [], newSstId;
    var i := 0;
    while i < |runs|
      invariant i <= |runs|
      invariant LevelSplit(out, splits, inserts, nextId) == SplitRuns(runs[..i], member, allowTrivial, newSstId)
    {
      assert runs[..i + 1][..i] == runs[..i];
      var t := runs[i];
      if Intersects(t, member) {
        var branch := t.(sstId := nextId);
        nextId := nextId + 1;
        var parent := t;
        if allowTrivial && OwnedBy(t, member) {
          parent := t.(tableIds := []);
        } else {
          parent := t.(sstId := nextId);
          nextId := nextId + 1;
        }
        splits := splits + [SstSplitInfo(branch.objectId, branch.sstId, t.sstId, parent.sstId)];
        inserts := inserts + [branch];
        out := out + [parent];
      } else {
        out := out + [t];
      }
      i := i + 1;
    }
    assert runs[..i] == runs;
    level' := level.(tableInfos := out);
  }

  // ---------------------------------------------------------------------
  // Id accounting

  /** The number of runs holding a moving table. */
  function IntersectCount(runs: seq<SstableInfo>, member: set<nat>): nat {
    if runs == [] then 0
    else IntersectCount(runs[..|runs| - 1], member) + (if Intersects(runs[|runs| - 1], member) then 1 else 0)
  }

  /** The ids a split of `runs` allocates: one per trivial split, two per
      other split. */
  function IdsUsed(runs: seq<SstableInfo>, member: set<nat>, allowTrivial: bool): nat {
    if runs == [] then 0
    else
      var t := runs[|runs| - 1];
      IdsUsed(runs[..|runs| - 1], member, allowTrivial) +
        (if !Intersects(t, member) then 0 else if IsTrivial(t, member, allowTrivial) then 1 else 2)
  }

  lemma {:induction false} IdsUsedBound(runs: seq<SstableInfo>, member: set<nat>, allowTrivial: bool)
    ensures IdsUsed(runs, member, allowTrivial) <= 2 * IntersectCount(runs, member)
    ensures !allowTrivial ==> IdsUsed(runs, member, allowTrivial) == 2 * IntersectCount(runs, member)
  {
    if runs != [] {
      IdsUsedBound(runs[..|runs| - 1], member, allowTrivial);
    }
  }

  lemma {:induction false} IdsUsedAppend(a: seq<SstableInfo>, b: seq<SstableInfo>, member: set<nat>, allowTrivial: bool)
    ensures IdsUsed(a + b, member, allowTrivial) == IdsUsed(a, member, allowTrivial) + IdsUsed(b, member, allowTrivial)
    ensures IntersectCount(a + b, member) == IntersectCount(a, member) + IntersectCount(b, member)
  {
    if b == [] {
      assert a + b == a;
    } else {
      assert (a + b)[..|a + b| - 1] == a + b[..|b| - 1];
      IdsUsedAppend(a, b[..|b| - 1], member, allowTrivial);
    }
  }

  /** A split allocates ids `start`, `start + 1`, ... without gaps: it ends
      at `start + IdsUsed`, makes one record and one branch per run holding
      a moving table, every id it hands out lies in `[start, nextId)` and no
      id is handed out twice; each record names its branch's id and object. */
  lemma {:induction false} SplitRunsIds(runs: seq<SstableInfo>, member: set<nat>, allowTrivial: bool, start: nat)
    ensures var r := SplitRuns(runs, member, allowTrivial, start);
      && r.nextId == start + IdsUsed(runs, member, allowTrivial)
      && |r.splits| == IntersectCount(runs, member)
      && RecordsWithin(r.splits, start, r.nextId) && RecordsAscending(r.splits)
      && (forall k | 0 <= k < |r.splits| ::
            r.splits[k].sstId == r.branches[k].sstId && r.splits[k].objectId == r.branches[k].objectId)
  {
    if runs != [] {
      var front := runs[..|runs| - 1];
      SplitRunsIds(front, member, allowTrivial, start);
      var acc := SplitRuns(front, member, allowTrivial, start);
      var step := SplitRun(runs[|runs| - 1], member, allowTrivial, acc.nextId);
      AppendRecords(acc.splits, step.splits, start, acc.nextId, step.nextId);
    }
  }

  /** Splitting keeps each run's object, key range and sizes; a run keeps
      its tables unless it was split trivially, which clears them. */
  lemma {:induction false} SplitRunsShape(runs: seq<SstableInfo>, member: set<nat>, allowTrivial: bool, start: nat)
    ensures var r := SplitRuns(runs, member, allowTrivial, start);
      forall i | 0 <= i < |runs| ::
        && r.runs[i].objectId == runs[i].objectId
        && r.runs[i].keyRange == runs[i].keyRange
        && r.runs[i].fileSize == runs[i].fileSize
        && r.runs[i].uncompressedFileSize == runs[i].uncompressedFileSize
        && (if Intersects(runs[i], member) && IsTrivial(runs[i], member, allowTrivial)
            then r.runs[i].tableIds == [] else r.runs[i].tableIds == runs[i].tableIds)
  {
    if runs != [] {
      var front := runs[..|runs| - 1];
      SplitRunsShape(front, member, allowTrivial, start);
      var r := SplitRuns(runs, member, allowTrivial, start);
      var acc := SplitRuns(front, member, allowTrivial, start);
      forall i | 0 <= i < |runs| - 1
        ensures r.runs[i] == acc.runs[i] && runs[i] == front[i]
      {
      }
    }
  }

  /** Each branch is a run of the level holding a moving table, with only
      its id changed (so it keeps all table ids). */
  lemma {:induction false} SplitRunsBranches(runs: seq<SstableInfo>, member: set<nat>, allowTrivial: bool, start: nat)
    ensures forall b | b in SplitRuns(runs, member, allowTrivial, start).branches ::
      exists t | t in runs :: b == t.(sstId := b.sstId) && Intersects(t, member)
  {
    if runs != [] {
      var front := runs[..|runs| - 1];
      SplitRunsBranches(front, member, allowTrivial, start);
      var r := SplitRuns(runs, member, allowTrivial, start);
      var acc := SplitRuns(front, member, allowTrivial, start);
      forall b | b in r.branches
        ensures exists t | t in runs :: b == t.(sstId := b.sstId) && Intersects(t, member)
      {
        if b in acc.branches {
          var t :| t in front && b == t.(sstId := b.sstId) && Intersects(t, member);
          assert t in runs;
        } else {
          assert runs[|runs| - 1] in runs;
        }
      }
    }
  }

  /** The runs holding a moving table, in their order. */
  function IntersectingRuns(runs: seq<SstableInfo>, member: set<nat>): (r: seq<SstableInfo>)
    ensures |r| == IntersectCount(runs, member)
  {
    if runs == [] then []
    else
      var t := runs[|runs| - 1];
      IntersectingRuns(runs[..|runs| - 1], member) + (if Intersects(t, member) then [t] else [])
  }

  /** The k-th record and the k-th branch come from the k-th run holding a
      moving table: the branch is that run under the record's child id, the
      record names the run's object and old id, and the run's new id is its
      old one after a trivial split and the one after the child id
      otherwise. */
  lemma {:induction false} SplitRunsRecords(runs: seq<SstableInfo>, member: set<nat>, allowTrivial: bool, start: nat)
    ensures var r := SplitRuns(runs, member, allowTrivial, start);
      var hit := IntersectingRuns(runs, member);
      && |r.splits| == |hit|
      && forall k | 0 <= k < |hit| ::
           && r.branches[k] == hit[k].(sstId := r.splits[k].sstId)
           && r.splits[k].objectId == hit[k].objectId
           && r.splits[k].oldParentSstId == hit[k].sstId
           && r.splits[k].newParentSstId ==
                (if IsTrivial(hit[k], member, allowTrivial) then hit[k].sstId else r.splits[k].sstId + 1)
  {
    if runs != [] {
      var front := runs[..|runs| - 1];
      SplitRunsRecords(front, member, allowTrivial, start);
      var r := SplitRuns(runs, member, allowTrivial, start);
      var acc := SplitRuns(front, member, allowTrivial, start);
      var hit := IntersectingRuns(runs, member);
      var accHit := IntersectingRuns(front, member);
      forall k | 0 <= k < |accHit|
        ensures r.splits[k] == acc.splits[k] && r.branches[k] == acc.branches[k] && hit[k] == accHit[k]
      {
      }
    }
  }

  /** Splitting keeps the sums of the runs' sizes. */
  lemma {:induction false} SplitRunsSizes(runs: seq<SstableInfo>, member: set<nat>, allowTrivial: bool, start: nat,
                                          k: SizeKind)
    ensures SumSizes(SplitRuns(runs, member, allowTrivial, start).runs, k) == SumSizes(runs, k)
  {
    if runs != [] {
      var front := runs[..|runs| - 1];
      SplitRunsSizes(front, member, allowTrivial, start, k);
      var acc := SplitRuns(front, member, allowTrivial, start);
      var step := SplitRun(runs[|runs| - 1], member, allowTrivial, acc.nextId);
      SumSizesAppend(acc.runs, step.runs, k);
      SumSizesAppend(front, [runs[|runs| - 1]], k);
      assert front + [runs[|runs| - 1]] == runs;
    }
  }

  /** Splitting `a + b` splits `a`, then `b` from where `a` left off. */
  lemma {:induction false} SplitRunsAppend(a: seq<SstableInfo>, b: seq<SstableInfo>, member: set<nat>,
                                           allowTrivial: bool, start: nat)
    ensures var x := SplitRuns(a, member, allowTrivial, start);
      var y := SplitRuns(b, member, allowTrivial, x.nextId);
      SplitRuns(a + b, member, allowTrivial, start) ==
        LevelSplit(x.runs + y.runs, x.splits + y.splits, x.branches + y.branches, y.nextId)
  {
    var x := SplitRuns(a, member, allowTrivial, start);
    if b == [] {
      assert a + b == a;
      assert x.runs + [] == x.runs && x.splits + [] == x.splits && x.branches + [] == x.branches;
    } else {
      var front := b[..|b| - 1];
      assert (a + b)[..|a + b| - 1] == a + front;
      assert (a + b)[|a + b| - 1] == b[|b| - 1];
      SplitRunsAppend(a, front, member, allowTrivial, start);
      var y := SplitRuns(front, member, allowTrivial, x.nextId);
      var step := SplitRun(b[|b| - 1], member, allowTrivial, y.nextId);
      assert x.runs + y.runs + step.runs == x.runs + (y.runs + step.runs);
      assert x.splits + y.splits + step.splits == x.splits + (y.splits + step.splits);
      assert x.branches + y.branches + step.branches == x.branches + (y.branches + step.branches);
    }
  }

  lemma {:induction false} KeptRunsAppend(a: seq<SstableInfo>, b: seq<SstableInfo>)
    ensures KeptRuns(a + b) == KeptRuns(a) + KeptRuns(b)
  {
    if a == [] {
      assert a + b == b;
    } else {
      assert (a + b)[1..] == a[1..] + b;
      KeptRunsAppend(a[1..], b);
    }
  }

  /** Every run is either kept or cleared. */
  lemma {:induction false} KeptClearedPartition(s: seq<SstableInfo>)
    ensures multiset(KeptRuns(s)) + multiset(ClearedRuns(s)) == multiset(s)
  {
    if s != [] {
      KeptClearedPartition(s[1..]);
      assert s == [s[0]] + s[1..];
    }
  }

  /** The sizes of the kept and the cleared runs add up to the sizes of all
      runs. */
  lemma {:induction false} KeptClearedSizes(s: seq<SstableInfo>, k: SizeKind)
    ensures SumSizes(KeptRuns(s), k) + SumSizes(ClearedRuns(s), k) == SumSizes(s, k)
  {
    if s != [] {
      KeptClearedSizes(s[1..], k);
      var head := if s[0].tableIds == [] then [] else [s[0]];
      var gone := if s[0].tableIds == [] then [s[0]] else [];
      SumSizesAppend(head, KeptRuns(s[1..]), k);
      SumSizesAppend(gone, ClearedRuns(s[1..]), k);
    }
  }

  /** Purging keeps the runs with tables and the level's header, and a level
      whose counters were the sums over its runs still has that property. */
  lemma PurgeClearedRunsSpec(l: Level)
    ensures var r := PurgeClearedRuns(l);
      && SameHeader(l, r)
      && multiset(r.tableInfos) + multiset(ClearedRuns(l.tableInfos)) == multiset(l.tableInfos)
      && (forall t | t in r.tableInfos :: t.tableIds != [])
      && (SizesConsistent(l) ==> SizesConsistent(r))
  {
    KeptClearedPartition(l.tableInfos);
    KeptClearedSizes(l.tableInfos, FileSize);
    KeptClearedSizes(l.tableInfos, UncompressedSize);
  }

  // ---------------------------------------------------------------------
  // init_with_parent_group

  /** The runs of a list of levels, level after level. */
  function FlattenRuns(ls: seq<Level>): seq<SstableInfo> {
    if ls == [] then [] else FlattenRuns(ls[..|ls| - 1]) + ls[|ls| - 1].tableInfos
  }

  /** Every run of a group: L0's sub-levels, then L1..Ln. */
  function AllRuns(levels: Levels): seq<SstableInfo> {
    FlattenRuns(levels.l0.subLevels) + FlattenRuns(levels.levels)
  }

  /** `count_new_ssts_in_group_split`: two ids per run of the parent group
      that holds a moving table; none when the parent does not exist. */
  function CountNewSstsInGroupSplit(m: map<nat, Levels>, parentId: nat, member: set<nat>): nat {
    if parentId !in m then 0 else 2 * IntersectCount(AllRuns(m[parentId]), member)
  }

  /** The runs whose tables were cleared by a trivial split. */
  function ClearedRuns(s: seq<SstableInfo>): (r: seq<SstableInfo>)
    ensures forall t :: t in r <==> t in s && t.tableIds == []
  {
    if s == [] then []
    else (if s[0].tableIds == [] then [s[0]] else []) + ClearedRuns(s[1..])
  }

  /** The runs that still hold tables, in their order. */
  function KeptRuns(s: seq<SstableInfo>): (r: seq<SstableInfo>)
    ensures forall t :: t in r <==> t in s && t.tableIds != []
  {
    if s == [] then []
    else (if s[0].tableIds == [] then [] else [s[0]]) + KeptRuns(s[1..])
  }

  /** `extract_if(table_ids.is_empty())`: removes the runs without tables and
      subtracts their sizes from the level's counters. */
  function PurgeClearedRuns(l: Level): Level {
    var gone := ClearedRuns(l.tableInfos);
    l.(tableInfos := KeptRuns(l.tableInfos),
       totalFileSize := l.totalFileSize - SumSizes(gone, FileSize),
       uncompressedFileSize := l.uncompressedFileSize - SumSizes(gone, UncompressedSize))
  }

  /** The parent and child groups while a split is in progress. */
  datatype SplitState = SplitState(parent: Levels, child: Levels, splits: seq<SstSplitInfo>, nextId: nat)

  /** The group fields a split step never changes. */
  predicate SameGroups(a: SplitState, b: SplitState) {
    && |b.parent.l0.subLevels| == |a.parent.l0.subLevels|
    && |b.parent.levels| == |a.parent.levels|
    && |b.child.levels| == |a.child.levels|
    && b.parent.groupId == a.parent.groupId && b.parent.parentGroupId == a.parent.parentGroupId
    && b.parent.memberTableIds == a.parent.memberTableIds
    && b.child.groupId == a.child.groupId && b.child.parentGroupId == a.child.parentGroupId
    && b.child.memberTableIds == a.child.memberTableIds
  }

  /** The parent's L0 once its `i`-th sub-level holds `runs`, with the
      cleared runs purged from it and their sizes taken off L0's counters. */
  function PurgedL0(l0: OverlappingLevel, i: nat, runs: seq<SstableInfo>): OverlappingLevel
    requires i < |l0.subLevels|
  {
    var gone := ClearedRuns(runs);
    OverlappingLevel(l0.subLevels[i := PurgeClearedRuns(l0.subLevels[i].(tableInfos := runs))],
                     l0.totalFileSize - SumSizes(gone, FileSize),
                     l0.uncompressedFileSize - SumSizes(gone, UncompressedSize))
  }

  /** Branched runs join the child's sub-level with the given id, or a new
      child sub-level with that id, placed before the first child sub-level
      with a larger id. */
  function BranchIntoL0(target: OverlappingLevel, id: nat, levelType: LevelType,
                        branches: seq<SstableInfo>): Result<OverlappingLevel, string>
  {
    var hint := PartitionPoint(target.subLevels, id);
    if hint < |target.subLevels| && target.subLevels[hint].subLevelId == id
    then AddSstsToSubLevel(target, hint, branches)
    else InsertNewSubLevel(target, id, levelType, branches, Some(hint))
  }

  /** One iteration over the parent's L0: the sub-level is split, and its
      branches, if any, join the child's L0. */
  function SplitL0Step(st: SplitState, i: nat, member: set<nat>, allowTrivial: bool): (r: Result<SplitState, string>)
    requires i < |st.parent.l0.subLevels|
    ensures r.Success? ==> (SameGroups(st, r.value) && r.value.parent.levels == st.parent.levels &&
                            r.value.child.levels == st.child.levels)
  {
    var sub := st.parent.l0.subLevels[i];
    var sp := SplitRuns(sub.tableInfos, member, allowTrivial, st.nextId);
    var st' := SplitState(st.parent.(l0 := PurgedL0(st.parent.l0, i, sp.runs)), st.child, st.splits + sp.splits, sp.nextId);
    if sp.branches == [] then Success(st')
    else
      var c := BranchIntoL0(st.child.l0, sub.subLevelId, sub.levelType, sp.branches);
      if c.Failure? then Failure(c.error) else Success(st'.(child := st.child.(l0 := c.value)))
  }

  /** Adds branched runs to a child level: its counters grow by their sizes,
      it is sorted by key range and it must be concat-able. */
  function ChildLevelInsert(c: Level, branches: seq<SstableInfo>): (r: Result<Level, string>)
    ensures r.Success? ==> CanConcat(r.value.tableInfos)
  {
    var sorted := SortByKeyRange(c.tableInfos + branches);
    if !CanConcat(sorted) then Failure(CHILD_LEVEL_NOT_CONCAT)
    else
      Success(c.(tableInfos := sorted,
                 totalFileSize := c.totalFileSize + SumSizes(branches, FileSize),
                 uncompressedFileSize := c.uncompressedFileSize + SumSizes(branches, UncompressedSize)))
  }

  /** One iteration over the parent's non-L0 levels: the level is split and
      the branches join the child's level with the same index. */
  function SplitLevelStep(st: SplitState, idx: nat, member: set<nat>, allowTrivial: bool): (r: Result<SplitState, string>)
    requires idx < |st.parent.levels|
    ensures r.Success? ==> SameGroups(st, r.value)
  {
    var lv := st.parent.levels[idx];
    var sp := SplitRuns(lv.tableInfos, member, allowTrivial, st.nextId);
    if idx >= |st.child.levels| then Failure(CHILD_LEVEL_OUT_OF_RANGE)
    else
      var c := ChildLevelInsert(st.child.levels[idx], sp.branches);
      if c.Failure? then Failure(c.error)
      else
        Success(SplitState(st.parent.(levels := st.parent.levels[idx := PurgeClearedRuns(lv.(tableInfos := sp.runs))]),
                           st.child.(levels := st.child.levels[idx := c.value]),
                           st.splits + sp.splits, sp.nextId))
  }

  /** The iterations over the parent's sub-levels from the `i`-th on. */
  function SplitL0From(st: SplitState, i: nat, member: set<nat>, allowTrivial: bool): (r: Result<SplitState, string>)
    requires i <= |st.parent.l0.subLevels|
    ensures r.Success? ==> (SameGroups(st, r.value) && r.value.parent.levels == st.parent.levels &&
                            r.value.child.levels == st.child.levels)
    decreases |st.parent.l0.subLevels| - i
  {
    if i == |st.parent.l0.subLevels| then Success(st)
    else
      var s := SplitL0Step(st, i, member, allowTrivial);
      if s.Failure? then s else SplitL0From(s.value, i + 1, member, allowTrivial)
  }

  /** The iterations over the parent's non-L0 levels from the `i`-th on. */
  function SplitLevelsFrom(st: SplitState, i: nat, member: set<nat>, allowTrivial: bool): (r: Result<SplitState, string>)
    requires i <= |st.parent.levels|
    ensures r.Success? ==> SameGroups(st, r.value)
    decreases |st.parent.levels| - i
  {
    if i == |st.parent.levels| then Success(st)
    else
      var s := SplitLevelStep(st, i, member, allowTrivial);
      if s.Failure? then s else SplitLevelsFrom(s.value, i + 1, member, allowTrivial)
  }

  /** The groups after a split and the split records. */
  type SplitOutcome = (map<nat, Levels>, seq<SstSplitInfo>)

  /** `init_with_parent_group` as a function: nothing happens without a real
      parent group; otherwise parent and child must be two existing groups,
      the parent's sub-levels are split first, then its levels L1..Ln. */
  function InitWithParentGroupSpec(m: map<nat, Levels>, parentId: nat, groupId: nat, member: set<nat>,
                                   start: nat, allowTrivial: bool): Result<SplitOutcome, string>
  {
    if parentId == NEW_COMPACTION_GROUP || parentId !in m then Success((m, []))
    else if parentId == groupId || groupId !in m then
      var e: Result<SplitOutcome, string> := Failure(SPLIT_GROUPS_MISSING); e
    else
      var a := SplitL0From(SplitState(m[parentId], m[groupId], [], start), 0, member, allowTrivial);
      if a.Failure? then Failure(a.error)
      else
        var b := SplitLevelsFrom(a.value, 0, member, allowTrivial);
        if b.Failure? then Failure(b.error)
        else
          var m': map<nat, Levels> := m[parentId := b.value.parent][groupId := b.value.child];
          Success((m', b.value.splits))
  }

  // ---------------------------------------------------------------------
  // What a split promises

  /** Every record's child id, and its new parent id when the parent run was
      given one, lies in `[lo, hi)`. */
  predicate RecordsWithin(splits: seq<SstSplitInfo>, lo: nat, hi: nat) {
    forall k | 0 <= k < |splits| ::
      && lo <= splits[k].sstId < hi
      && (splits[k].newParentSstId == splits[k].oldParentSstId || lo <= splits[k].newParentSstId < hi)
  }

  /** The last id a record hands out: its new parent id when the parent run
      was given one, its child id otherwise. */
  function TopId(rec: SstSplitInfo): nat {
    if rec.newParentSstId == rec.oldParentSstId then rec.sstId else rec.newParentSstId
  }

  /** A new parent id comes after its record's child id, and every id a
      record hands out comes after every id handed out by the records
      before it. */
  predicate RecordsAscending(splits: seq<SstSplitInfo>) {
    && (forall k | 0 <= k < |splits| ::
          splits[k].newParentSstId == splits[k].oldParentSstId || splits[k].sstId < splits[k].newParentSstId)
    && (forall k, l | 0 <= k < l < |splits| :: TopId(splits[k]) < splits[l].sstId)
  }

  /** The ids a record hands out: the child id, and the new parent id when
      the parent run was given one. */
  function HandedOut(rec: SstSplitInfo): set<nat> {
    if rec.newParentSstId == rec.oldParentSstId then {rec.sstId} else {rec.sstId, rec.newParentSstId}
  }

  /** No id is handed out twice: a record's two new ids differ, and two
      records hand out disjoint sets of ids. */
  lemma RecordsHandOutDistinctIds(splits: seq<SstSplitInfo>)
    requires RecordsAscending(splits)
    ensures forall k | 0 <= k < |splits| && splits[k].newParentSstId != splits[k].oldParentSstId ::
      splits[k].sstId != splits[k].newParentSstId
    ensures forall k, l | 0 <= k < |splits| && 0 <= l < |splits| && k != l :: HandedOut(splits[k]) !! HandedOut(splits[l])
  {
    forall k, l | 0 <= k < |splits| && 0 <= l < |splits| && k != l
      ensures HandedOut(splits[k]) !! HandedOut(splits[l])
    {
      var a, b := if k < l then k else l, if k < l then l else k;
      assert forall x | x in HandedOut(splits[a]) :: x <= TopId(splits[a]);
      assert forall x | x in HandedOut(splits[b]) :: x >= splits[b].sstId;
    }
  }

  lemma AppendRecords(a: seq<SstSplitInfo>, b: seq<SstSplitInfo>, lo: nat, mid: nat, hi: nat)
    requires lo <= mid <= hi
    requires RecordsWithin(a, lo, mid) && RecordsAscending(a)
    requires RecordsWithin(b, mid, hi) && RecordsAscending(b)
    ensures RecordsWithin(a + b, lo, hi) && RecordsAscending(a + b)
  {
  }

  lemma SplitStepRecords(acc: seq<SstSplitInfo>, runs: seq<SstableInfo>, member: set<nat>, allowTrivial: bool,
                         lo: nat, start: nat)
    requires lo <= start && RecordsWithin(acc, lo, start) && RecordsAscending(acc)
    ensures var sp := SplitRuns(runs, member, allowTrivial, start);
      && sp.nextId == start + IdsUsed(runs, member, allowTrivial)
      && RecordsWithin(acc + sp.splits, lo, sp.nextId) && RecordsAscending(acc + sp.splits)
  {
    var sp := SplitRuns(runs, member, allowTrivial, start);
    SplitRunsIds(runs, member, allowTrivial, start);
    AppendRecords(acc, sp.splits, lo, start, sp.nextId);
  }

  lemma FlattenRunsStep(ls: seq<Level>, n: nat)
    requires 0 < n <= |ls|
    ensures FlattenRuns(ls[..n]) == FlattenRuns(ls[..n - 1]) + ls[n - 1].tableInfos
  {
    assert ls[..n][..n - 1] == ls[..n - 1];
  }

  /** One sub-level step hands out the ids its runs need, right after the
      ones already handed out, leaves the other sub-levels alone and leaves
      no run without tables in the sub-level it split. */
  lemma SplitL0StepSpec(st: SplitState, i: nat, member: set<nat>, allowTrivial: bool, lo: nat)
    requires i < |st.parent.l0.subLevels|
    requires SplitL0Step(st, i, member, allowTrivial).Success?
    requires lo <= st.nextId && RecordsWithin(st.splits, lo, st.nextId) && RecordsAscending(st.splits)
    ensures var r := SplitL0Step(st, i, member, allowTrivial).value;
      && r.nextId == st.nextId + IdsUsed(st.parent.l0.subLevels[i].tableInfos, member, allowTrivial)
      && RecordsWithin(r.splits, lo, r.nextId) && RecordsAscending(r.splits)
      && (forall j | 0 <= j < |st.parent.l0.subLevels| && j != i :: r.parent.l0.subLevels[j] == st.parent.l0.subLevels[j])
      && (forall t | t in r.parent.l0.subLevels[i].tableInfos :: t.tableIds != [])
  {
    var sub := st.parent.l0.subLevels[i];
    SplitStepRecords(st.splits, sub.tableInfos, member, allowTrivial, lo, st.nextId);
  }

  /** One level step hands out the ids its runs need, leaves the other levels
      of both groups alone, leaves the child level sorted and concat-able and
      no run without tables in the parent level. */
  lemma SplitLevelStepSpec(st: SplitState, i: nat, member: set<nat>, allowTrivial: bool, lo: nat)
    requires i < |st.parent.levels|
    requires SplitLevelStep(st, i, member, allowTrivial).Success?
    requires lo <= st.nextId && RecordsWithin(st.splits, lo, st.nextId) && RecordsAscending(st.splits)
    ensures var r := SplitLevelStep(st, i, member, allowTrivial).value;
      && r.nextId == st.nextId + IdsUsed(st.parent.levels[i].tableInfos, member, allowTrivial)
      && RecordsWithin(r.splits, lo, r.nextId) && RecordsAscending(r.splits)
      && (forall j | 0 <= j < |st.parent.levels| && j != i :: r.parent.levels[j] == st.parent.levels[j])
      && (forall j | 0 <= j < |st.child.levels| && j != i :: r.child.levels[j] == st.child.levels[j])
      && CanConcat(r.child.levels[i].tableInfos) && SortedByKeyRange(r.child.levels[i].tableInfos)
      && (forall t | t in r.parent.levels[i].tableInfos :: t.tableIds != [])
  {
    var lv := st.parent.levels[i];
    var sp := SplitRuns(lv.tableInfos, member, allowTrivial, st.nextId);
    SplitStepRecords(st.splits, lv.tableInfos, member, allowTrivial, lo, st.nextId);
    SortByKeyRangeSorted(st.child.levels[i].tableInfos + sp.branches);
  }

  lemma {:induction false} FlattenRunsNonEmpty(ls: seq<Level>)
    requires forall j | 0 <= j < |ls| :: forall t | t in ls[j].tableInfos :: t.tableIds != []
    ensures forall t | t in FlattenRuns(ls) :: t.tableIds != []
  {
    if ls != [] {
      FlattenRunsNonEmpty(ls[..|ls| - 1]);
    }
  }

  /** What the loop over the parent's sub-levels has achieved after its
      first `i` iterations, starting from `st0`. */
  predicate L0Progress(st0: SplitState, st: SplitState, i: nat, member: set<nat>, allowTrivial: bool, lo: nat) {
    && i <= |st0.parent.l0.subLevels|
    && SameGroups(st0, st) && st.parent.levels == st0.parent.levels && st.child.levels == st0.child.levels
    && st.nextId == st0.nextId + IdsUsed(FlattenRuns(st0.parent.l0.subLevels[..i]), member, allowTrivial)
    && lo <= st0.nextId
    && RecordsWithin(st.splits, lo, st.nextId) && RecordsAscending(st.splits)
    && (forall j | i <= j < |st0.parent.l0.subLevels| :: st.parent.l0.subLevels[j] == st0.parent.l0.subLevels[j])
    && (forall j | 0 <= j < i :: forall t | t in st.parent.l0.subLevels[j].tableInfos :: t.tableIds != [])
  }

  lemma L0ProgressStep(st0: SplitState, st: SplitState, i: nat, member: set<nat>, allowTrivial: bool, lo: nat)
    requires L0Progress(st0, st, i, member, allowTrivial, lo)
    requires i < |st0.parent.l0.subLevels|
    requires SplitL0Step(st, i, member, allowTrivial).Success?
    ensures L0Progress(st0, SplitL0Step(st, i, member, allowTrivial).value, i + 1, member, allowTrivial, lo)
  {
    var subs := st0.parent.l0.subLevels;
    SplitL0StepSpec(st, i, member, allowTrivial, lo);
    FlattenRunsStep(subs, i + 1);
    IdsUsedAppend(FlattenRuns(subs[..i]), subs[i].tableInfos, member, allowTrivial);
  }

  lemma L0ProgressDone(st0: SplitState, st: SplitState, member: set<nat>, allowTrivial: bool, lo: nat)
    requires L0Progress(st0, st, |st0.parent.l0.subLevels|, member, allowTrivial, lo)
    ensures st.nextId == st0.nextId + IdsUsed(FlattenRuns(st0.parent.l0.subLevels), member, allowTrivial)
    ensures forall t | t in FlattenRuns(st.parent.l0.subLevels) :: t.tableIds != []
  {
    assert st0.parent.l0.subLevels[..|st0.parent.l0.subLevels|] == st0.parent.l0.subLevels;
    FlattenRunsNonEmpty(st.parent.l0.subLevels);
  }

  /** The iterations still to come keep the progress made so far. */
  lemma {:induction false} L0ProgressFrom(st0: SplitState, st: SplitState, i: nat, member: set<nat>, allowTrivial: bool, lo: nat)
    requires L0Progress(st0, st, i, member, allowTrivial, lo)
    requires SplitL0From(st, i, member, allowTrivial).Success?
    ensures L0Progress(st0, SplitL0From(st, i, member, allowTrivial).value, |st0.parent.l0.subLevels|,
                       member, allowTrivial, lo)
    decreases |st0.parent.l0.subLevels| - i
  {
    if i < |st0.parent.l0.subLevels| {
      L0ProgressStep(st0, st, i, member, allowTrivial, lo);
      L0ProgressFrom(st0, SplitL0Step(st, i, member, allowTrivial).value, i + 1, member, allowTrivial, lo);
    }
  }

  /** The iterations over the parent's sub-levels hand out the ids the
      sub-levels' runs need after the ones already handed out (all of them
      at least `lo`), and leave no run of the parent's L0 without tables. */
  lemma SplitL0LevelsSpec(st0: SplitState, member: set<nat>, allowTrivial: bool, lo: nat)
    requires lo <= st0.nextId && RecordsWithin(st0.splits, lo, st0.nextId) && RecordsAscending(st0.splits)
    ensures var r := SplitL0From(st0, 0, member, allowTrivial);
      r.Success? ==> (
      && r.value.nextId == st0.nextId + IdsUsed(FlattenRuns(st0.parent.l0.subLevels), member, allowTrivial)
      && RecordsWithin(r.value.splits, lo, r.value.nextId) && RecordsAscending(r.value.splits)
      && (forall t | t in FlattenRuns(r.value.parent.l0.subLevels) :: t.tableIds != []))
  {
    var r := SplitL0From(st0, 0, member, allowTrivial);
    if r.Success? {
      assert st0.parent.l0.subLevels[..0] == [];
      L0ProgressFrom(st0, st0, 0, member, allowTrivial, lo);
      L0ProgressDone(st0, r.value, member, allowTrivial, lo);
    }
  }

  /** The loop over the parent's sub-levels in `init_with_parent_group`:
      it ends where `SplitL0From` does. */
  method SplitL0Levels(st0: SplitState, member: set<nat>, allowTrivial: bool) returns (r: Result<SplitState, string>)
    ensures r == SplitL0From(st0, 0, member, allowTrivial)
  {
    var st := st0;
    var i := 0;
    while i < |st0.parent.l0.subLevels|
      invariant i <= |st0.parent.l0.subLevels| == |st.parent.l0.subLevels|
      invariant SplitL0From(st, i, member, allowTrivial) == SplitL0From(st0, 0, member, allowTrivial)
    {
      var s := SplitL0Step(st, i, member, allowTrivial);
      if s.Failure? {
        return s;
      }
      st, i := s.value, i + 1;
    }
    r := Success(st);
  }

  lemma {:induction false} FlattenRunsAppend(a: seq<Level>, b: seq<Level>)
    ensures FlattenRuns(a + b) == FlattenRuns(a) + FlattenRuns(b)
  {
    if b == [] {
      assert a + b == a;
    } else {
      assert (a + b)[..|a + b| - 1] == a + b[..|b| - 1];
      FlattenRunsAppend(a, b[..|b| - 1]);
    }
  }

  lemma FlattenRunsSingle(l: Level)
    ensures FlattenRuns([l]) == l.tableInfos
  {
    assert [l][..0] == [];
  }

  /** The runs of a list of levels around its `i`-th level. */
  lemma FlattenRunsAt(ls: seq<Level>, i: nat)
    requires i < |ls|
    ensures FlattenRuns(ls) == FlattenRuns(ls[..i]) + ls[i].tableInfos + FlattenRuns(ls[i + 1..])
  {
    var p, q := ls[..i + 1], ls[i + 1..];
    assert ls == p + q;
    FlattenRunsAppend(p, q);
    FlattenRunsStep(ls, i + 1);
  }

  /** L0's counters are the sums of its sub-levels' counters, and each
      sub-level's counters the sums over its runs. */
  predicate L0Consistent(l0: OverlappingLevel) {
    L0SizesConsistent(l0) && AllSizesConsistent(l0.subLevels)
  }

  /** Adding runs to a sub-level adds exactly those runs to L0 and keeps its
      counters consistent. */
  lemma AddSstsToSubLevelRuns(l0: OverlappingLevel, idx: nat, ins: seq<SstableInfo>)
    requires AddSstsToSubLevel(l0, idx, ins).Success?
    ensures var c := AddSstsToSubLevel(l0, idx, ins).value;
      && multiset(FlattenRuns(c.subLevels)) == multiset(FlattenRuns(l0.subLevels)) + multiset(ins)
      && (L0Consistent(l0) ==> L0Consistent(c))
  {
    AddSstsToSubLevelSpec(l0, idx, ins);
    var ls := l0.subLevels;
    var cs := AddSstsToSubLevel(l0, idx, ins).value.subLevels;
    FlattenRunsAt(ls, idx);
    FlattenRunsAt(cs, idx);
    assert cs[..idx] == ls[..idx] && cs[idx + 1..] == ls[idx + 1..];
  }

  /** Inserting a new sub-level adds exactly its runs to L0. */
  lemma InsertNewSubLevelRuns(l0: OverlappingLevel, id: nat, levelType: LevelType, ins: seq<SstableInfo>, pos: nat)
    requires id != U64_MAX
    requires InsertNewSubLevel(l0, id, levelType, ins, Some(pos)).Success?
    ensures var c := InsertNewSubLevel(l0, id, levelType, ins, Some(pos)).value;
      multiset(FlattenRuns(c.subLevels)) == multiset(FlattenRuns(l0.subLevels)) + multiset(ins)
  {
    InsertNewSubLevelAtSpec(l0, id, levelType, ins, pos);
    var ls := l0.subLevels;
    var cs := InsertNewSubLevel(l0, id, levelType, ins, Some(pos)).value.subLevels;
    FlattenRunsAt(cs, pos);
    FlattenRunsAppend(ls[..pos], ls[pos..]);
    assert ls[..pos] + ls[pos..] == ls;
  }

  /** Inserting a new sub-level keeps L0's counters consistent. */
  lemma InsertNewSubLevelConsistent(l0: OverlappingLevel, id: nat, levelType: LevelType, ins: seq<SstableInfo>,
                                    pos: nat)
    requires id != U64_MAX
    requires InsertNewSubLevel(l0, id, levelType, ins, Some(pos)).Success?
    ensures L0Consistent(l0) ==> L0Consistent(InsertNewSubLevel(l0, id, levelType, ins, Some(pos)).value)
  {
    InsertNewSubLevelAtSpec(l0, id, levelType, ins, pos);
    var ls := l0.subLevels;
    var cs := InsertNewSubLevel(l0, id, levelType, ins, Some(pos)).value.subLevels;
    if AllSizesConsistent(ls) {
      forall j | 0 <= j < |cs|
        ensures SizesConsistent(cs[j])
      {
        if j < pos {
          assert cs[j] == cs[..pos][j] == ls[j];
        } else if j > pos {
          assert cs[j] == cs[pos + 1..][j - pos - 1] == ls[pos..][j - pos - 1] == ls[j - 1];
        }
      }
    }
  }

  /** Branching runs into the child's L0 adds exactly those runs to it
      (unless the id is `U64_MAX`, which `insert_new_sub_level` ignores)
      and keeps its counters consistent. */
  lemma BranchIntoL0Spec(target: OverlappingLevel, id: nat, levelType: LevelType, branches: seq<SstableInfo>)
    requires id != U64_MAX
    requires BranchIntoL0(target, id, levelType, branches).Success?
    ensures var c := BranchIntoL0(target, id, levelType, branches).value;
      && multiset(FlattenRuns(c.subLevels)) == multiset(FlattenRuns(target.subLevels)) + multiset(branches)
      && (L0Consistent(target) ==> L0Consistent(c))
  {
    var hint := PartitionPoint(target.subLevels, id);
    if hint < |target.subLevels| && target.subLevels[hint].subLevelId == id {
      AddSstsToSubLevelRuns(target, hint, branches);
    } else {
      InsertNewSubLevelRuns(target, id, levelType, branches, hint);
      InsertNewSubLevelConsistent(target, id, levelType, branches, hint);
    }
  }

  /** Purging a split sub-level keeps the parent's L0 counters consistent. */
  lemma PurgedL0Spec(l0: OverlappingLevel, i: nat, runs: seq<SstableInfo>)
    requires i < |l0.subLevels|
    requires SumSizes(runs, FileSize) == SumSizes(l0.subLevels[i].tableInfos, FileSize)
    requires SumSizes(runs, UncompressedSize) == SumSizes(l0.subLevels[i].tableInfos, UncompressedSize)
    ensures |PurgedL0(l0, i, runs).subLevels| == |l0.subLevels|
    ensures L0Consistent(l0) ==> L0Consistent(PurgedL0(l0, i, runs))
  {
    var lv := l0.subLevels[i].(tableInfos := runs);
    var purged := PurgeClearedRuns(lv);
    PurgeClearedRunsSpec(lv);
    SumLevelSizesUpdate(l0.subLevels, i, purged, FileSize);
    SumLevelSizesUpdate(l0.subLevels, i, purged, UncompressedSize);
  }

  /** What the loop over the parent's sub-levels has done with the parent
      after its first `i` iterations: splitting the runs of those sub-levels
      in one go yields the records made so far and, with the cleared runs
      purged, the parent's runs there; the parent's L0 counters stay
      consistent. */
  predicate L0ParentDone(st0: SplitState, st: SplitState, i: nat, member: set<nat>, allowTrivial: bool) {
    && i <= |st0.parent.l0.subLevels| == |st.parent.l0.subLevels|
    && (var sp := SplitRuns(FlattenRuns(st0.parent.l0.subLevels[..i]), member, allowTrivial, st0.nextId);
        && st.splits == st0.splits + sp.splits
        && FlattenRuns(st.parent.l0.subLevels[..i]) == KeptRuns(sp.runs))
    && (L0Consistent(st0.parent.l0) ==> L0Consistent(st.parent.l0))
  }

  /** What the loop over the parent's sub-levels has done with the child
      after its first `i` iterations: the child's L0 gained exactly the
      branches of splitting the runs of those sub-levels in one go, and its
      counters stay consistent. */
  predicate L0ChildDone(st0: SplitState, st: SplitState, i: nat, member: set<nat>, allowTrivial: bool) {
    && i <= |st0.parent.l0.subLevels|
    && (var sp := SplitRuns(FlattenRuns(st0.parent.l0.subLevels[..i]), member, allowTrivial, st0.nextId);
        multiset(FlattenRuns(st.child.l0.subLevels)) ==
          multiset(FlattenRuns(st0.child.l0.subLevels)) + multiset(sp.branches))
    && (L0Consistent(st0.child.l0) ==> L0Consistent(st.child.l0))
  }

  /** No sub-level has the id `U64_MAX`. */
  predicate NoMaxSubLevelId(ls: seq<Level>) {
    forall j | 0 <= j < |ls| :: ls[j].subLevelId != U64_MAX
  }

  /** A sub-level step in terms of the split of that sub-level. */
  lemma SplitL0StepParts(st: SplitState, i: nat, member: set<nat>, allowTrivial: bool)
    requires i < |st.parent.l0.subLevels|
    requires SplitL0Step(st, i, member, allowTrivial).Success?
    ensures var r := SplitL0Step(st, i, member, allowTrivial).value;
      var sub := st.parent.l0.subLevels[i];
      var sp := SplitRuns(sub.tableInfos, member, allowTrivial, st.nextId);
      && r.splits == st.splits + sp.splits
      && r.parent.l0 == PurgedL0(st.parent.l0, i, sp.runs)
      && r.child.l0 == (if sp.branches == [] then st.child.l0
                        else BranchIntoL0(st.child.l0, sub.subLevelId, sub.levelType, sp.branches).value)
      && (sp.branches != [] ==> BranchIntoL0(st.child.l0, sub.subLevelId, sub.levelType, sp.branches).Success?)
  {
  }

  /** A sub-level step keeps the parent's L0 counters consistent. */
  lemma SplitL0StepCounters(st: SplitState, i: nat, member: set<nat>, allowTrivial: bool)
    requires i < |st.parent.l0.subLevels|
    requires SplitL0Step(st, i, member, allowTrivial).Success?
    ensures L0Consistent(st.parent.l0) ==> L0Consistent(SplitL0Step(st, i, member, allowTrivial).value.parent.l0)
  {
    var sub := st.parent.l0.subLevels[i];
    var sp := SplitRuns(sub.tableInfos, member, allowTrivial, st.nextId);
    SplitL0StepParts(st, i, member, allowTrivial);
    SplitRunsSizes(sub.tableInfos, member, allowTrivial, st.nextId, FileSize);
    SplitRunsSizes(sub.tableInfos, member, allowTrivial, st.nextId, UncompressedSize);
    PurgedL0Spec(st.parent.l0, i, sp.runs);
  }

  /** Splitting the runs of the first `i + 1` sub-levels in one go splits
      the first `i`, then the `i`-th from where they left off. */
  lemma SplitL0Prefix(subs: seq<Level>, i: nat, member: set<nat>, allowTrivial: bool, start: nat, mid: nat)
    requires i < |subs|
    requires mid == start + IdsUsed(FlattenRuns(subs[..i]), member, allowTrivial)
    ensures var x := SplitRuns(FlattenRuns(subs[..i]), member, allowTrivial, start);
      var y := SplitRuns(subs[i].tableInfos, member, allowTrivial, mid);
      var z := SplitRuns(FlattenRuns(subs[..i + 1]), member, allowTrivial, start);
      && z.runs == x.runs + y.runs && z.splits == x.splits + y.splits && z.branches == x.branches + y.branches
  {
    var a, b := FlattenRuns(subs[..i]), subs[i].tableInfos;
    var x := SplitRuns(a, member, allowTrivial, start);
    SplitRunsIds(a, member, allowTrivial, start);
    var y := SplitRuns(b, member, allowTrivial, x.nextId);
    SplitRunsAppend(a, b, member, allowTrivial, start);
    FlattenRunsStep(subs, i + 1);
    assert FlattenRuns(subs[..i + 1]) == a + b;
  }

  /** Records made for the first `i` levels, then for the `i`-th, are the
      records made for the first `i + 1` levels. */
  lemma RecordsPrefixStep(ls: seq<Level>, i: nat, member: set<nat>, allowTrivial: bool, start: nat, mid: nat,
                          s0: seq<SstSplitInfo>, s: seq<SstSplitInfo>, s': seq<SstSplitInfo>)
    requires i < |ls| && mid == start + IdsUsed(FlattenRuns(ls[..i]), member, allowTrivial)
    requires s == s0 + SplitRuns(FlattenRuns(ls[..i]), member, allowTrivial, start).splits
    requires s' == s + SplitRuns(ls[i].tableInfos, member, allowTrivial, mid).splits
    ensures s' == s0 + SplitRuns(FlattenRuns(ls[..i + 1]), member, allowTrivial, start).splits
  {
    SplitL0Prefix(ls, i, member, allowTrivial, start, mid);
  }

  /** Kept runs of the first `i` levels, then of the `i`-th, are the kept
      runs of the first `i + 1` levels. */
  lemma KeptPrefixStep(ls: seq<Level>, i: nat, member: set<nat>, allowTrivial: bool, start: nat, mid: nat,
                       ss: seq<Level>, rs: seq<Level>)
    requires i < |ls| && mid == start + IdsUsed(FlattenRuns(ls[..i]), member, allowTrivial)
    requires i < |ss| && FlattenRuns(ss[..i]) == KeptRuns(SplitRuns(FlattenRuns(ls[..i]), member, allowTrivial, start).runs)
    requires i < |rs| && rs[..i] == ss[..i]
    requires rs[i].tableInfos == KeptRuns(SplitRuns(ls[i].tableInfos, member, allowTrivial, mid).runs)
    ensures FlattenRuns(rs[..i + 1]) == KeptRuns(SplitRuns(FlattenRuns(ls[..i + 1]), member, allowTrivial, start).runs)
  {
    SplitL0Prefix(ls, i, member, allowTrivial, start, mid);
    FlattenRunsStep(rs, i + 1);
    KeptRunsAppend(SplitRuns(FlattenRuns(ls[..i]), member, allowTrivial, start).runs,
                   SplitRuns(ls[i].tableInfos, member, allowTrivial, mid).runs);
  }

  /** A sub-level step extends `L0ParentDone` by one
      sub-level, given the step in terms of the sub-level's split. */
  lemma L0ParentStep(st0: SplitState, st: SplitState, r: SplitState, i: nat, member: set<nat>, allowTrivial: bool)
    requires L0ParentDone(st0, st, i, member, allowTrivial)
    requires i < |st0.parent.l0.subLevels|
    requires st.nextId == st0.nextId + IdsUsed(FlattenRuns(st0.parent.l0.subLevels[..i]), member, allowTrivial)
    requires st.parent.l0.subLevels[i] == st0.parent.l0.subLevels[i]
    requires var sp := SplitRuns(st0.parent.l0.subLevels[i].tableInfos, member, allowTrivial, st.nextId);
      r.splits == st.splits + sp.splits && r.parent.l0 == PurgedL0(st.parent.l0, i, sp.runs)
    requires L0Consistent(st.parent.l0) ==> L0Consistent(r.parent.l0)
    ensures L0ParentDone(st0, r, i + 1, member, allowTrivial)
  {
    var subs := st0.parent.l0.subLevels;
    RecordsPrefixStep(subs, i, member, allowTrivial, st0.nextId, st.nextId, st0.splits, st.splits, r.splits);
    var rs, ss := r.parent.l0.subLevels, st.parent.l0.subLevels;
    assert rs[..i] == ss[..i];
    KeptPrefixStep(subs, i, member, allowTrivial, st0.nextId, st.nextId, ss, rs);
  }

  /** A sub-level step extends `L0ChildDone` by one
      sub-level, given the step in terms of the sub-level's split. */
  lemma L0ChildStep(st0: SplitState, st: SplitState, r: SplitState, i: nat, member: set<nat>, allowTrivial: bool)
    requires L0ChildDone(st0, st, i, member, allowTrivial)
    requires i < |st0.parent.l0.subLevels| && st0.parent.l0.subLevels[i].subLevelId != U64_MAX
    requires st.nextId == st0.nextId + IdsUsed(FlattenRuns(st0.parent.l0.subLevels[..i]), member, allowTrivial)
    requires var sub := st0.parent.l0.subLevels[i];
      var sp := SplitRuns(sub.tableInfos, member, allowTrivial, st.nextId);
      && (sp.branches != [] ==> BranchIntoL0(st.child.l0, sub.subLevelId, sub.levelType, sp.branches).Success?)
      && r.child.l0 == (if sp.branches == [] then st.child.l0
                        else BranchIntoL0(st.child.l0, sub.subLevelId, sub.levelType, sp.branches).value)
    ensures L0ChildDone(st0, r, i + 1, member, allowTrivial)
  {
    var subs := st0.parent.l0.subLevels;
    var sub := subs[i];
    var a := FlattenRuns(subs[..i]);
    var x := SplitRuns(a, member, allowTrivial, st0.nextId);
    var y := SplitRuns(sub.tableInfos, member, allowTrivial, x.nextId);
    SplitRunsIds(a, member, allowTrivial, st0.nextId);
    assert x.nextId == st.nextId;
    SplitRunsAppend(a, sub.tableInfos, member, allowTrivial, st0.nextId);
    FlattenRunsStep(subs, i + 1);
    if y.branches != [] {
      BranchIntoL0Spec(st.child.l0, sub.subLevelId, sub.levelType, y.branches);
    } else {
      assert x.branches + y.branches == x.branches;
    }
  }

  /** The iterations still to come keep what was done with the parent. */
  lemma {:induction false} L0ParentFrom(st0: SplitState, st: SplitState, i: nat, member: set<nat>, allowTrivial: bool,
                                        lo: nat)
    requires L0Progress(st0, st, i, member, allowTrivial, lo) && L0ParentDone(st0, st, i, member, allowTrivial)
    requires SplitL0From(st, i, member, allowTrivial).Success?
    ensures L0ParentDone(st0, SplitL0From(st, i, member, allowTrivial).value, |st0.parent.l0.subLevels|,
                         member, allowTrivial)
    decreases |st0.parent.l0.subLevels| - i
  {
    if i < |st0.parent.l0.subLevels| {
      L0ProgressStep(st0, st, i, member, allowTrivial, lo);
      SplitL0StepParts(st, i, member, allowTrivial);
      var r := SplitL0Step(st, i, member, allowTrivial).value;
      SplitL0StepCounters(st, i, member, allowTrivial);
      L0ParentStep(st0, st, r, i, member, allowTrivial);
      L0ParentFrom(st0, r, i + 1, member, allowTrivial, lo);
    }
  }

  /** The iterations still to come keep what was done with the child. */
  lemma {:induction false} L0ChildFrom(st0: SplitState, st: SplitState, i: nat, member: set<nat>, allowTrivial: bool,
                                       lo: nat)
    requires L0Progress(st0, st, i, member, allowTrivial, lo) && L0ChildDone(st0, st, i, member, allowTrivial)
    requires NoMaxSubLevelId(st0.parent.l0.subLevels)
    requires SplitL0From(st, i, member, allowTrivial).Success?
    ensures L0ChildDone(st0, SplitL0From(st, i, member, allowTrivial).value, |st0.parent.l0.subLevels|,
                        member, allowTrivial)
    decreases |st0.parent.l0.subLevels| - i
  {
    if i < |st0.parent.l0.subLevels| {
      L0ProgressStep(st0, st, i, member, allowTrivial, lo);
      SplitL0StepParts(st, i, member, allowTrivial);
      var r := SplitL0Step(st, i, member, allowTrivial).value;
      L0ChildStep(st0, st, r, i, member, allowTrivial);
      L0ChildFrom(st0, r, i + 1, member, allowTrivial, lo);
    }
  }

  /** What the loop over the parent's levels L1..Ln has achieved after its
      first `i` iterations, starting from `st0`. */
  predicate NonL0Progress(st0: SplitState, st: SplitState, i: nat, member: set<nat>, allowTrivial: bool, lo: nat) {
    && i <= |st0.parent.levels|
    && SameGroups(st0, st) && st.parent.l0 == st0.parent.l0
    && st.nextId == st0.nextId + IdsUsed(FlattenRuns(st0.parent.levels[..i]), member, allowTrivial)
    && lo <= st0.nextId
    && RecordsWithin(st.splits, lo, st.nextId) && RecordsAscending(st.splits)
    && (forall j | i <= j < |st0.parent.levels| :: st.parent.levels[j] == st0.parent.levels[j])
    && (forall j | 0 <= j < i :: forall t | t in st.parent.levels[j].tableInfos :: t.tableIds != [])
    && i <= |st.child.levels|
    && (forall j | 0 <= j < i ::
          CanConcat(st.child.levels[j].tableInfos) && SortedByKeyRange(st.child.levels[j].tableInfos))
  }

  lemma NonL0ProgressStep(st0: SplitState, st: SplitState, i: nat, member: set<nat>, allowTrivial: bool, lo: nat)
    requires NonL0Progress(st0, st, i, member, allowTrivial, lo)
    requires i < |st0.parent.levels|
    requires SplitLevelStep(st, i, member, allowTrivial).Success?
    ensures NonL0Progress(st0, SplitLevelStep(st, i, member, allowTrivial).value, i + 1, member, allowTrivial, lo)
  {
    var ls := st0.parent.levels;
    SplitLevelStepSpec(st, i, member, allowTrivial, lo);
    FlattenRunsStep(ls, i + 1);
    IdsUsedAppend(FlattenRuns(ls[..i]), ls[i].tableInfos, member, allowTrivial);
  }

  lemma NonL0ProgressDone(st0: SplitState, st: SplitState, member: set<nat>, allowTrivial: bool, lo: nat)
    requires NonL0Progress(st0, st, |st0.parent.levels|, member, allowTrivial, lo)
    ensures st.nextId == st0.nextId + IdsUsed(FlattenRuns(st0.parent.levels), member, allowTrivial)
    ensures forall t | t in FlattenRuns(st.parent.levels) :: t.tableIds != []
  {
    assert st0.parent.levels[..|st0.parent.levels|] == st0.parent.levels;
    FlattenRunsNonEmpty(st.parent.levels);
  }

  /** The iterations still to come keep the progress made so far. */
  lemma {:induction false} NonL0ProgressFrom(st0: SplitState, st: SplitState, i: nat, member: set<nat>, allowTrivial: bool,
                                             lo: nat)
    requires NonL0Progress(st0, st, i, member, allowTrivial, lo)
    requires SplitLevelsFrom(st, i, member, allowTrivial).Success?
    ensures NonL0Progress(st0, SplitLevelsFrom(st, i, member, allowTrivial).value, |st0.parent.levels|,
                          member, allowTrivial, lo)
    decreases |st0.parent.levels| - i
  {
    if i < |st0.parent.levels| {
      NonL0ProgressStep(st0, st, i, member, allowTrivial, lo);
      NonL0ProgressFrom(st0, SplitLevelStep(st, i, member, allowTrivial).value, i + 1, member, allowTrivial, lo);
    }
  }

  /** The iterations over the parent's levels L1..Ln hand out the ids the
      levels' runs need, leave every child level that received runs sorted
      and concat-able and no run of the parent's levels without tables. */
  lemma SplitNonL0LevelsSpec(st0: SplitState, member: set<nat>, allowTrivial: bool, lo: nat)
    requires lo <= st0.nextId && RecordsWithin(st0.splits, lo, st0.nextId) && RecordsAscending(st0.splits)
    ensures var r := SplitLevelsFrom(st0, 0, member, allowTrivial);
      r.Success? ==> (
      && r.value.nextId == st0.nextId + IdsUsed(FlattenRuns(st0.parent.levels), member, allowTrivial)
      && RecordsWithin(r.value.splits, lo, r.value.nextId) && RecordsAscending(r.value.splits)
      && r.value.parent.l0 == st0.parent.l0
      && (forall t | t in FlattenRuns(r.value.parent.levels) :: t.tableIds != [])
      && |st0.parent.levels| <= |r.value.child.levels|
      && (forall j | 0 <= j < |st0.parent.levels| ::
            CanConcat(r.value.child.levels[j].tableInfos) && SortedByKeyRange(r.value.child.levels[j].tableInfos)))
  {
    var r := SplitLevelsFrom(st0, 0, member, allowTrivial);
    if r.Success? {
      assert st0.parent.levels[..0] == [];
      NonL0ProgressFrom(st0, st0, 0, member, allowTrivial, lo);
      NonL0ProgressDone(st0, r.value, member, allowTrivial, lo);
    }
  }

  /** Adding branched runs to a child level adds exactly those runs and
      keeps the level's counters equal to the sums over its runs. */
  lemma ChildLevelInsertSpec(c: Level, branches: seq<SstableInfo>)
    requires ChildLevelInsert(c, branches).Success?
    ensures var r := ChildLevelInsert(c, branches).value;
      && SameHeader(c, r)
      && multiset(r.tableInfos) == multiset(c.tableInfos) + multiset(branches)
      && (SizesConsistent(c) ==> SizesConsistent(r))
  {
    SumSizesSort(c.tableInfos + branches, FileSize);
    SumSizesSort(c.tableInfos + branches, UncompressedSize);
    SumSizesAppend(c.tableInfos, branches, FileSize);
    SumSizesAppend(c.tableInfos, branches, UncompressedSize);
  }

  /** A level step in terms of the split of that level. */
  lemma SplitLevelStepParts(st: SplitState, i: nat, member: set<nat>, allowTrivial: bool)
    requires i < |st.parent.levels|
    requires SplitLevelStep(st, i, member, allowTrivial).Success?
    ensures var r := SplitLevelStep(st, i, member, allowTrivial).value;
      var lv := st.parent.levels[i];
      var sp := SplitRuns(lv.tableInfos, member, allowTrivial, st.nextId);
      && i < |st.child.levels|
      && r.splits == st.splits + sp.splits
      && r.parent.levels == st.parent.levels[i := PurgeClearedRuns(lv.(tableInfos := sp.runs))]
      && r.child.l0 == st.child.l0
      && |r.child.levels| == |st.child.levels|
      && r.child.levels == st.child.levels[i := r.child.levels[i]]
      && multiset(r.child.levels[i].tableInfos) == multiset(st.child.levels[i].tableInfos) + multiset(sp.branches)
      && (SizesConsistent(st.child.levels[i]) ==> SizesConsistent(r.child.levels[i]))
  {
    var lv := st.parent.levels[i];
    var sp := SplitRuns(lv.tableInfos, member, allowTrivial, st.nextId);
    ChildLevelInsertSpec(st.child.levels[i], sp.branches);
  }

  /** The first id the loop over L1..Ln hands out for the `j`-th level. */
  function LevelStart(st0: SplitState, j: nat, member: set<nat>, allowTrivial: bool): nat
    requires j <= |st0.parent.levels|
  {
    st0.nextId + IdsUsed(FlattenRuns(st0.parent.levels[..j]), member, allowTrivial)
  }

  /** What the loop over L1..Ln did with the `j`-th level of both groups:
      the child level gained exactly the branches of the parent level's
      split, and the parent level is that split with the cleared runs
      purged. */
  predicate LevelDone(st0: SplitState, st: SplitState, j: nat, member: set<nat>, allowTrivial: bool)
    requires j < |st0.parent.levels| && j < |st0.child.levels| && j < |st.parent.levels| && j < |st.child.levels|
  {
    var sp := SplitRuns(st0.parent.levels[j].tableInfos, member, allowTrivial, LevelStart(st0, j, member, allowTrivial));
    && multiset(st.child.levels[j].tableInfos) == multiset(st0.child.levels[j].tableInfos) + multiset(sp.branches)
    && (SizesConsistent(st0.child.levels[j]) ==> SizesConsistent(st.child.levels[j]))
    && st.parent.levels[j] == PurgeClearedRuns(st0.parent.levels[j].(tableInfos := sp.runs))
  }

  /** What the loop over L1..Ln has done with the runs after its first `i`
      iterations: the records are those of splitting the runs of those
      levels in one go, each of those levels is done, and the other child
      levels and the child's L0 are as they were. */
  predicate NonL0Content(st0: SplitState, st: SplitState, i: nat, member: set<nat>, allowTrivial: bool) {
    && i <= |st0.parent.levels| && i <= |st0.child.levels|
    && |st.parent.levels| == |st0.parent.levels| && |st.child.levels| == |st0.child.levels|
    && st.child.l0 == st0.child.l0
    && st.splits == st0.splits + SplitRuns(FlattenRuns(st0.parent.levels[..i]), member, allowTrivial, st0.nextId).splits
    && (forall j | 0 <= j < i :: LevelDone(st0, st, j, member, allowTrivial))
    && (forall j | i <= j < |st0.child.levels| :: st.child.levels[j] == st0.child.levels[j])
  }

  lemma NonL0ContentStep(st0: SplitState, st: SplitState, r: SplitState, i: nat, member: set<nat>, allowTrivial: bool)
    requires NonL0Content(st0, st, i, member, allowTrivial)
    requires i < |st0.parent.levels| && i < |st0.child.levels|
    requires st.nextId == LevelStart(st0, i, member, allowTrivial)
    requires st.parent.levels[i] == st0.parent.levels[i]
    requires var sp := SplitRuns(st0.parent.levels[i].tableInfos, member, allowTrivial, st.nextId);
      && r.splits == st.splits + sp.splits
      && r.parent.levels == st.parent.levels[i := PurgeClearedRuns(st0.parent.levels[i].(tableInfos := sp.runs))]
      && r.child.l0 == st.child.l0
      && |r.child.levels| == |st.child.levels|
      && r.child.levels == st.child.levels[i := r.child.levels[i]]
      && multiset(r.child.levels[i].tableInfos) == multiset(st.child.levels[i].tableInfos) + multiset(sp.branches)
      && (SizesConsistent(st.child.levels[i]) ==> SizesConsistent(r.child.levels[i]))
    ensures NonL0Content(st0, r, i + 1, member, allowTrivial)
  {
    RecordsPrefixStep(st0.parent.levels, i, member, allowTrivial, st0.nextId, st.nextId, st0.splits, st.splits, r.splits);
    forall j | 0 <= j < i + 1
      ensures LevelDone(st0, r, j, member, allowTrivial)
    {
      if j < i {
        assert LevelDone(st0, st, j, member, allowTrivial);
        assert r.child.levels[j] == st.child.levels[j] && r.parent.levels[j] == st.parent.levels[j];
      }
    }
  }

  /** The iterations still to come keep what was done with the runs. */
  lemma {:induction false} NonL0ContentFrom(st0: SplitState, st: SplitState, i: nat, member: set<nat>,
                                            allowTrivial: bool, lo: nat)
    requires NonL0Progress(st0, st, i, member, allowTrivial, lo) && NonL0Content(st0, st, i, member, allowTrivial)
    requires SplitLevelsFrom(st, i, member, allowTrivial).Success?
    ensures NonL0Content(st0, SplitLevelsFrom(st, i, member, allowTrivial).value, |st0.parent.levels|,
                         member, allowTrivial)
    decreases |st0.parent.levels| - i
  {
    if i < |st0.parent.levels| {
      NonL0ProgressStep(st0, st, i, member, allowTrivial, lo);
      SplitLevelStepParts(st, i, member, allowTrivial);
      var r := SplitLevelStep(st, i, member, allowTrivial).value;
      NonL0ContentStep(st0, st, r, i, member, allowTrivial);
      NonL0ContentFrom(st0, r, i + 1, member, allowTrivial, lo);
    }
  }

  /** The loop over the parent's levels L1..Ln in `init_with_parent_group`:
      it ends where `SplitLevelsFrom` does. */
  method SplitNonL0Levels(st0: SplitState, member: set<nat>, allowTrivial: bool) returns (r: Result<SplitState, string>)
    ensures r == SplitLevelsFrom(st0, 0, member, allowTrivial)
  {
    var st := st0;
    var i := 0;
    while i < |st0.parent.levels|
      invariant i <= |st0.parent.levels| == |st.parent.levels|
      invariant SplitLevelsFrom(st, i, member, allowTrivial) == SplitLevelsFrom(st0, 0, member, allowTrivial)
    {
      var s := SplitLevelStep(st, i, member, allowTrivial);
      if s.Failure? {
        return s;
      }
      st, i := s.value, i + 1;
    }
    r := Success(st);
  }

  /** The groups a successful split leaves behind, given what the two loops
      promise about the final split state `st`. */
  lemma SplitGroupsShape(m: map<nat, Levels>, parentId: nat, groupId: nat, member: set<nat>, start: nat,
                         allowTrivial: bool, st: SplitState)
    requires parentId in m && groupId in m && parentId != groupId
    requires st.nextId == start + IdsUsed(AllRuns(m[parentId]), member, allowTrivial)
    requires RecordsWithin(st.splits, start, st.nextId) && RecordsAscending(st.splits)
    requires forall t | t in AllRuns(st.parent) :: t.tableIds != []
    requires |m[parentId].levels| <= |st.child.levels|
    requires forall j | 0 <= j < |m[parentId].levels| ::
      CanConcat(st.child.levels[j].tableInfos) && SortedByKeyRange(st.child.levels[j].tableInfos)
    ensures var m' := m[parentId := st.parent][groupId := st.child];
      && m'.Keys == m.Keys
      && (forall g | g in m && g != parentId && g != groupId :: m'[g] == m[g])
      && RecordsWithin(st.splits, start, start + CountNewSstsInGroupSplit(m, parentId, member))
      && (forall t | t in AllRuns(m'[parentId]) :: t.tableIds != [])
      && |m[parentId].levels| <= |m'[groupId].levels|
      && (forall idx | 0 <= idx < |m[parentId].levels| ::
            CanConcat(m'[groupId].levels[idx].tableInfos) && SortedByKeyRange(m'[groupId].levels[idx].tableInfos))
  {
    IdsUsedBound(AllRuns(m[parentId]), member, allowTrivial);
    var hi := start + CountNewSstsInGroupSplit(m, parentId, member);
    assert st.nextId <= hi;
    forall k | 0 <= k < |st.splits|
      ensures start <= st.splits[k].sstId < hi
      ensures st.splits[k].newParentSstId == st.splits[k].oldParentSstId || start <= st.splits[k].newParentSstId < hi
    {
    }
  }

  /** What a successful `init_with_parent_group` leaves behind: no id
      outside the block of `count_new_ssts_in_group_split` ids reserved from
      `start` is handed out and none twice; only the parent and the child
      group change; no run of the parent is left without tables and every
      child level that received runs is sorted and concat-able. */
  lemma InitWithParentGroupShape(m: map<nat, Levels>, parentId: nat, groupId: nat, member: set<nat>,
                                 start: nat, allowTrivial: bool)
    ensures var r := InitWithParentGroupSpec(m, parentId, groupId, member, start, allowTrivial);
      r.Success? ==> (
      && r.value.0.Keys == m.Keys
      && (forall g | g in m && g != parentId && g != groupId :: r.value.0[g] == m[g])
      && RecordsWithin(r.value.1, start, start + CountNewSstsInGroupSplit(m, parentId, member))
      && RecordsAscending(r.value.1))
    ensures var r := InitWithParentGroupSpec(m, parentId, groupId, member, start, allowTrivial);
      r.Success? && parentId != NEW_COMPACTION_GROUP && parentId in m ==> (
      && parentId != groupId && groupId in m
      && (forall t | t in AllRuns(r.value.0[parentId]) :: t.tableIds != [])
      && |m[parentId].levels| <= |r.value.0[groupId].levels|
      && (forall idx | 0 <= idx < |m[parentId].levels| ::
            CanConcat(r.value.0[groupId].levels[idx].tableInfos) &&
            SortedByKeyRange(r.value.0[groupId].levels[idx].tableInfos)))
  {
    if parentId != NEW_COMPACTION_GROUP && parentId in m && parentId != groupId && groupId in m {
      var st0 := SplitState(m[parentId], m[groupId], [], start);
      var a := SplitL0From(st0, 0, member, allowTrivial);
      if a.Success? {
        SplitL0LevelsSpec(st0, member, allowTrivial, start);
        var b := SplitLevelsFrom(a.value, 0, member, allowTrivial);
        SplitNonL0LevelsSpec(a.value, member, allowTrivial, start);
        if b.Success? {
          var st := b.value;
          var parent := m[parentId];
          IdsUsedAppend(FlattenRuns(parent.l0.subLevels), FlattenRuns(parent.levels), member, allowTrivial);
          assert st.nextId == start + IdsUsed(AllRuns(parent), member, allowTrivial);
          assert forall t | t in AllRuns(st.parent) :: t.tableIds != [];
          SplitGroupsShape(m, parentId, groupId, member, start, allowTrivial, st);
        }
      }
    }
  }

  /** What the loop over the parent's sub-levels does with the parent's
      runs, starting from a state with no records. */
  lemma SplitL0ParentOutcome(st0: SplitState, member: set<nat>, allowTrivial: bool)
    requires st0.splits == []
    requires SplitL0From(st0, 0, member, allowTrivial).Success?
    ensures var a := SplitL0From(st0, 0, member, allowTrivial).value;
      var sp := SplitRuns(FlattenRuns(st0.parent.l0.subLevels), member, allowTrivial, st0.nextId);
      && a.splits == sp.splits
      && FlattenRuns(a.parent.l0.subLevels) == KeptRuns(sp.runs)
      && (L0Consistent(st0.parent.l0) ==> L0Consistent(a.parent.l0))
  {
    var n := |st0.parent.l0.subLevels|;
    assert st0.parent.l0.subLevels[..0] == [];
    assert st0.splits + [] == st0.splits;
    L0ProgressFrom(st0, st0, 0, member, allowTrivial, st0.nextId);
    L0ParentFrom(st0, st0, 0, member, allowTrivial, st0.nextId);
    assert st0.parent.l0.subLevels[..n] == st0.parent.l0.subLevels;
    var a := SplitL0From(st0, 0, member, allowTrivial).value;
    assert a.parent.l0.subLevels[..n] == a.parent.l0.subLevels;
  }

  /** What the loop over the parent's sub-levels does with the child's L0
      when no sub-level has the id `U64_MAX`. */
  lemma SplitL0ChildOutcome(st0: SplitState, member: set<nat>, allowTrivial: bool)
    requires st0.splits == [] && NoMaxSubLevelId(st0.parent.l0.subLevels)
    requires SplitL0From(st0, 0, member, allowTrivial).Success?
    ensures var a := SplitL0From(st0, 0, member, allowTrivial).value;
      var sp := SplitRuns(FlattenRuns(st0.parent.l0.subLevels), member, allowTrivial, st0.nextId);
      && multiset(FlattenRuns(a.child.l0.subLevels)) ==
           multiset(FlattenRuns(st0.child.l0.subLevels)) + multiset(sp.branches)
      && (L0Consistent(st0.child.l0) ==> L0Consistent(a.child.l0))
  {
    var n := |st0.parent.l0.subLevels|;
    assert st0.parent.l0.subLevels[..0] == [];
    L0ProgressFrom(st0, st0, 0, member, allowTrivial, st0.nextId);
    L0ChildFrom(st0, st0, 0, member, allowTrivial, st0.nextId);
    assert st0.parent.l0.subLevels[..n] == st0.parent.l0.subLevels;
  }

  /** What the loop over the parent's levels L1..Ln does with the records
      and with both L0s. */
  lemma SplitLevelsRecords(a: SplitState, member: set<nat>, allowTrivial: bool, lo: nat)
    requires lo <= a.nextId && RecordsWithin(a.splits, lo, a.nextId) && RecordsAscending(a.splits)
    requires SplitLevelsFrom(a, 0, member, allowTrivial).Success?
    ensures var b := SplitLevelsFrom(a, 0, member, allowTrivial).value;
      && b.parent.l0 == a.parent.l0 && b.child.l0 == a.child.l0
      && b.splits == a.splits + SplitRuns(FlattenRuns(a.parent.levels), member, allowTrivial, a.nextId).splits
  {
    assert a.parent.levels[..0] == [];
    assert a.splits + [] == a.splits;
    NonL0ProgressFrom(a, a, 0, member, allowTrivial, lo);
    NonL0ContentFrom(a, a, 0, member, allowTrivial, lo);
    assert a.parent.levels[..|a.parent.levels|] == a.parent.levels;
  }

  /** What the loop over the parent's levels L1..Ln does with the levels. */
  lemma SplitLevelsOutcome(a: SplitState, member: set<nat>, allowTrivial: bool, lo: nat)
    requires lo <= a.nextId && RecordsWithin(a.splits, lo, a.nextId) && RecordsAscending(a.splits)
    requires SplitLevelsFrom(a, 0, member, allowTrivial).Success?
    ensures var b := SplitLevelsFrom(a, 0, member, allowTrivial).value;
      && |b.parent.levels| == |a.parent.levels| <= |a.child.levels| == |b.child.levels|
      && (forall j | 0 <= j < |a.parent.levels| :: LevelDone(a, b, j, member, allowTrivial))
      && (forall j | |a.parent.levels| <= j < |a.child.levels| :: b.child.levels[j] == a.child.levels[j])
  {
    assert a.parent.levels[..0] == [];
    assert a.splits + [] == a.splits;
    NonL0ProgressFrom(a, a, 0, member, allowTrivial, lo);
    NonL0ContentFrom(a, a, 0, member, allowTrivial, lo);
  }

  /** A successful split in terms of its two loops. */
  lemma InitWithParentGroupParts(m: map<nat, Levels>, parentId: nat, groupId: nat, member: set<nat>,
                                 start: nat, allowTrivial: bool)
    requires parentId != NEW_COMPACTION_GROUP && parentId in m
    requires InitWithParentGroupSpec(m, parentId, groupId, member, start, allowTrivial).Success?
    ensures groupId in m && groupId != parentId
    ensures var st0 := SplitState(m[parentId], m[groupId], [], start);
      && SplitL0From(st0, 0, member, allowTrivial).Success?
      && var a := SplitL0From(st0, 0, member, allowTrivial).value;
      && SplitLevelsFrom(a, 0, member, allowTrivial).Success?
      && var b := SplitLevelsFrom(a, 0, member, allowTrivial).value;
      && var r := InitWithParentGroupSpec(m, parentId, groupId, member, start, allowTrivial).value;
      && parentId in r.0 && groupId in r.0
      && r.0[parentId] == b.parent && r.0[groupId] == b.child && r.1 == b.splits
  {
  }

  /** The records of a successful split are those of splitting all of the
      parent's runs, L0's sub-levels first, in one go: the k-th record
      belongs to the k-th run holding a moving table, names its object and
      its old id, and gives the parent run a new id, the one after the
      child's, unless the split was trivial. */
  lemma InitWithParentGroupRecords(m: map<nat, Levels>, parentId: nat, groupId: nat, member: set<nat>,
                                   start: nat, allowTrivial: bool)
    requires parentId != NEW_COMPACTION_GROUP && parentId in m
    requires InitWithParentGroupSpec(m, parentId, groupId, member, start, allowTrivial).Success?
    ensures var splits := InitWithParentGroupSpec(m, parentId, groupId, member, start, allowTrivial).value.1;
      var hit := IntersectingRuns(AllRuns(m[parentId]), member);
      && splits == SplitRuns(AllRuns(m[parentId]), member, allowTrivial, start).splits
      && |splits| == |hit|
      && forall k | 0 <= k < |hit| ::
           && splits[k].objectId == hit[k].objectId
           && splits[k].oldParentSstId == hit[k].sstId
           && splits[k].newParentSstId ==
                (if IsTrivial(hit[k], member, allowTrivial) then hit[k].sstId else splits[k].sstId + 1)
  {
    InitWithParentGroupSplits(m, parentId, groupId, member, start, allowTrivial);
    SplitRunsRecords(AllRuns(m[parentId]), member, allowTrivial, start);
  }

  /** The records of a successful split are those of splitting all of the
      parent's runs in one go. */
  lemma InitWithParentGroupSplits(m: map<nat, Levels>, parentId: nat, groupId: nat, member: set<nat>,
                                  start: nat, allowTrivial: bool)
    requires parentId != NEW_COMPACTION_GROUP && parentId in m
    requires InitWithParentGroupSpec(m, parentId, groupId, member, start, allowTrivial).Success?
    ensures InitWithParentGroupSpec(m, parentId, groupId, member, start, allowTrivial).value.1 ==
              SplitRuns(AllRuns(m[parentId]), member, allowTrivial, start).splits
  {
    var parent := m[parentId];
    InitWithParentGroupParts(m, parentId, groupId, member, start, allowTrivial);
    var st0 := SplitState(parent, m[groupId], [], start);
    SplitL0ParentOutcome(st0, member, allowTrivial);
    SplitL0LevelsSpec(st0, member, allowTrivial, start);
    var a := SplitL0From(st0, 0, member, allowTrivial).value;
    SplitLevelsRecords(a, member, allowTrivial, start);
    var b := SplitLevelsFrom(a, 0, member, allowTrivial).value;
    var l0Runs, lvRuns := FlattenRuns(parent.l0.subLevels), FlattenRuns(parent.levels);
    var x := SplitRuns(l0Runs, member, allowTrivial, start);
    SplitRunsIds(l0Runs, member, allowTrivial, start);
    assert a.nextId == x.nextId;
    var y := SplitRuns(lvRuns, member, allowTrivial, x.nextId);
    assert b.splits == x.splits + y.splits;
    SplitRunsAppend(l0Runs, lvRuns, member, allowTrivial, start);
  }

  /** The first id a split hands out for the parent's level `idx + 1`: the
      ids for the runs of L0 and of the levels before it come first. */
  function LevelSplitStart(parent: Levels, idx: nat, member: set<nat>, allowTrivial: bool, start: nat): nat
    requires idx <= |parent.levels|
  {
    start + IdsUsed(FlattenRuns(parent.l0.subLevels), member, allowTrivial) +
      IdsUsed(FlattenRuns(parent.levels[..idx]), member, allowTrivial)
  }

  /** A successful split moves the branches of the parent's L0 into the
      child's L0, which gains exactly those runs, and keeps in the parent's
      L0 exactly the split runs that still hold tables; both L0s keep
      consistent counters. Runs branched off a sub-level with the id
      `U64_MAX` would be dropped by `insert_new_sub_level`, so sub-level ids
      are taken to be below it. */
  lemma InitWithParentGroupL0Runs(m: map<nat, Levels>, parentId: nat, groupId: nat, member: set<nat>,
                                  start: nat, allowTrivial: bool)
    requires parentId != NEW_COMPACTION_GROUP && parentId in m
    requires InitWithParentGroupSpec(m, parentId, groupId, member, start, allowTrivial).Success?
    requires NoMaxSubLevelId(m[parentId].l0.subLevels)
    ensures groupId in m && groupId != parentId
    ensures var r := InitWithParentGroupSpec(m, parentId, groupId, member, start, allowTrivial).value.0;
      var parent, child := m[parentId], m[groupId];
      var sp := SplitRuns(FlattenRuns(parent.l0.subLevels), member, allowTrivial, start);
      && parentId in r && groupId in r
      && multiset(FlattenRuns(r[groupId].l0.subLevels)) ==
           multiset(FlattenRuns(child.l0.subLevels)) + multiset(sp.branches)
      && FlattenRuns(r[parentId].l0.subLevels) == KeptRuns(sp.runs)
      && (L0Consistent(parent.l0) ==> L0Consistent(r[parentId].l0))
      && (L0Consistent(child.l0) ==> L0Consistent(r[groupId].l0))
  {
    InitWithParentGroupParts(m, parentId, groupId, member, start, allowTrivial);
    var st0 := SplitState(m[parentId], m[groupId], [], start);
    SplitL0ParentOutcome(st0, member, allowTrivial);
    SplitL0ChildOutcome(st0, member, allowTrivial);
    SplitL0LevelsSpec(st0, member, allowTrivial, start);
    var a := SplitL0From(st0, 0, member, allowTrivial).value;
    SplitLevelsRecords(a, member, allowTrivial, start);
  }

  /** A level step's outcome for the parent level: the split runs that still
      hold tables, with consistent counters if the level had them. */
  lemma LevelDoneParent(st0: SplitState, st: SplitState, j: nat, member: set<nat>, allowTrivial: bool)
    requires j < |st0.parent.levels| && j < |st0.child.levels| && j < |st.parent.levels| && j < |st.child.levels|
    requires LevelDone(st0, st, j, member, allowTrivial)
    ensures var sp := SplitRuns(st0.parent.levels[j].tableInfos, member, allowTrivial,
                                LevelStart(st0, j, member, allowTrivial));
      && st.parent.levels[j].tableInfos == KeptRuns(sp.runs)
      && (SizesConsistent(st0.parent.levels[j]) ==> SizesConsistent(st.parent.levels[j]))
  {
    var lv := st0.parent.levels[j];
    var start := LevelStart(st0, j, member, allowTrivial);
    var sp := SplitRuns(lv.tableInfos, member, allowTrivial, start);
    SplitRunsSizes(lv.tableInfos, member, allowTrivial, start, FileSize);
    SplitRunsSizes(lv.tableInfos, member, allowTrivial, start, UncompressedSize);
    PurgeClearedRunsSpec(lv.(tableInfos := sp.runs));
  }

  /** The two loops of a successful split in terms of the groups it
      leaves behind, with the first id handed out for each level L1..Ln. */
  lemma InitWithParentGroupLevelParts(m: map<nat, Levels>, parentId: nat, groupId: nat, member: set<nat>,
                                      start: nat, allowTrivial: bool)
    requires parentId != NEW_COMPACTION_GROUP && parentId in m
    requires InitWithParentGroupSpec(m, parentId, groupId, member, start, allowTrivial).Success?
    ensures groupId in m && groupId != parentId
    ensures var r := InitWithParentGroupSpec(m, parentId, groupId, member, start, allowTrivial).value.0;
      var a := SplitL0From(SplitState(m[parentId], m[groupId], [], start), 0, member, allowTrivial).value;
      var b := SplitLevelsFrom(a, 0, member, allowTrivial).value;
      && parentId in r && groupId in r && r[parentId] == b.parent && r[groupId] == b.child
      && a.parent.levels == m[parentId].levels && a.child.levels == m[groupId].levels
      && |b.parent.levels| == |a.parent.levels| <= |a.child.levels| == |b.child.levels|
      && (forall idx | |a.parent.levels| <= idx < |a.child.levels| :: b.child.levels[idx] == a.child.levels[idx])
      && forall idx | 0 <= idx < |a.parent.levels| ::
           && LevelDone(a, b, idx, member, allowTrivial)
           && LevelStart(a, idx, member, allowTrivial) == LevelSplitStart(m[parentId], idx, member, allowTrivial, start)
  {
    var parent := m[parentId];
    InitWithParentGroupParts(m, parentId, groupId, member, start, allowTrivial);
    var st0 := SplitState(parent, m[groupId], [], start);
    SplitL0LevelsSpec(st0, member, allowTrivial, start);
    var a := SplitL0From(st0, 0, member, allowTrivial).value;
    SplitLevelsOutcome(a, member, allowTrivial, start);
    SplitRunsIds(FlattenRuns(parent.l0.subLevels), member, allowTrivial, start);
  }

  /** A successful split moves the branches of each parent level L1..Ln
      into the child's level with the same index, which gains exactly those
      runs and keeps consistent counters if it had them; the child's other
      levels stay as they were. */
  lemma InitWithParentGroupChildLevels(m: map<nat, Levels>, parentId: nat, groupId: nat, member: set<nat>,
                                       start: nat, allowTrivial: bool)
    requires parentId != NEW_COMPACTION_GROUP && parentId in m
    requires InitWithParentGroupSpec(m, parentId, groupId, member, start, allowTrivial).Success?
    ensures groupId in m && groupId != parentId
    ensures var r := InitWithParentGroupSpec(m, parentId, groupId, member, start, allowTrivial).value.0;
      var parent, child := m[parentId], m[groupId];
      && groupId in r
      && |parent.levels| <= |child.levels| == |r[groupId].levels|
      && (forall idx | |parent.levels| <= idx < |child.levels| :: r[groupId].levels[idx] == child.levels[idx])
      && forall idx | 0 <= idx < |parent.levels| ::
           var sp := SplitRuns(parent.levels[idx].tableInfos, member, allowTrivial,
                               LevelSplitStart(parent, idx, member, allowTrivial, start));
           && multiset(r[groupId].levels[idx].tableInfos) == multiset(child.levels[idx].tableInfos) + multiset(sp.branches)
           && (SizesConsistent(child.levels[idx]) ==> SizesConsistent(r[groupId].levels[idx]))
  {
    InitWithParentGroupLevelParts(m, parentId, groupId, member, start, allowTrivial);
  }

  /** A successful split keeps in each parent level L1..Ln exactly the split
      runs that still hold tables, with consistent counters if the level had
      them. */
  lemma InitWithParentGroupParentLevels(m: map<nat, Levels>, parentId: nat, groupId: nat, member: set<nat>,
                                        start: nat, allowTrivial: bool)
    requires parentId != NEW_COMPACTION_GROUP && parentId in m
    requires InitWithParentGroupSpec(m, parentId, groupId, member, start, allowTrivial).Success?
    ensures var r := InitWithParentGroupSpec(m, parentId, groupId, member, start, allowTrivial).value.0;
      var parent := m[parentId];
      && parentId in r
      && |r[parentId].levels| == |parent.levels|
      && forall idx | 0 <= idx < |parent.levels| ::
           var sp := SplitRuns(parent.levels[idx].tableInfos, member, allowTrivial,
                               LevelSplitStart(parent, idx, member, allowTrivial, start));
           && r[parentId].levels[idx].tableInfos == KeptRuns(sp.runs)
           && (SizesConsistent(parent.levels[idx]) ==> SizesConsistent(r[parentId].levels[idx]))
  {
    InitWithParentGroupLevelParts(m, parentId, groupId, member, start, allowTrivial);
    var r := InitWithParentGroupSpec(m, parentId, groupId, member, start, allowTrivial).value.0;
    var a := SplitL0From(SplitState(m[parentId], m[groupId], [], start), 0, member, allowTrivial).value;
    var b := SplitLevelsFrom(a, 0, member, allowTrivial).value;
    forall idx | 0 <= idx < |m[parentId].levels|
      ensures var sp := SplitRuns(m[parentId].levels[idx].tableInfos, member, allowTrivial,
                                  LevelSplitStart(m[parentId], idx, member, allowTrivial, start));
        && r[parentId].levels[idx].tableInfos == KeptRuns(sp.runs)
        && (SizesConsistent(m[parentId].levels[idx]) ==> SizesConsistent(r[parentId].levels[idx]))
    {
      LevelDoneParent(a, b, idx, member, allowTrivial);
    }
  }

  /** `init_with_parent_group`: the result is the one `InitWithParentGroupSpec`
      describes; no id outside the block of `count_new_ssts_in_group_split`
      ids reserved from `start` is handed out and none twice; only the parent
      and the child group change; afterwards no run of the parent is left
      without tables and every child level that received runs is sorted and
      concat-able. */
  method InitWithParentGroup(m: map<nat, Levels>, parentId: nat, groupId: nat, member: set<nat>,
                             start: nat, allowTrivial: bool) returns (r: Result<SplitOutcome, string>)
    ensures r == InitWithParentGroupSpec(m, parentId, groupId, member, start, allowTrivial)
    ensures r.Success? ==> (
      && r.value.0.Keys == m.Keys
      && (forall g | g in m && g != parentId && g != groupId :: r.value.0[g] == m[g])
      && RecordsWithin(r.value.1, start, start + CountNewSstsInGroupSplit(m, parentId, member))
      && RecordsAscending(r.value.1))
    ensures r.Success? && parentId != NEW_COMPACTION_GROUP && parentId in m ==> (
      && parentId != groupId && groupId in m
      && (forall t | t in AllRuns(r.value.0[parentId]) :: t.tableIds != [])
      && |m[parentId].levels| <= |r.value.0[groupId].levels|
      && (forall idx | 0 <= idx < |m[parentId].levels| ::
            CanConcat(r.value.0[groupId].levels[idx].tableInfos) &&
            SortedByKeyRange(r.value.0[groupId].levels[idx].tableInfos)))
  {
    if parentId == NEW_COMPACTION_GROUP || parentId !in m {
      return Success((m, []));
    }
    if parentId == groupId || groupId !in m {
      return Failure(SPLIT_GROUPS_MISSING);
    }
    var st0 := SplitState(m[parentId], m[groupId], [], start);
    var a := SplitL0Levels(st0, member, allowTrivial);
    if a.Failure? {
      return Failure(a.error);
    }
    var b := SplitNonL0Levels(a.value, member, allowTrivial);
    if b.Failure? {
      return Failure(b.error);
    }
    var st := b.value;
    var m': map<nat, Levels> := m[parentId := st.parent][groupId := st.child];
    r := Success((m', st.splits));
    InitWithParentGroupShape(m, parentId, groupId, member, start, allowTrivial);
  }
}
