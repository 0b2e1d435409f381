/** Operations on one level, on L0's sub-levels and on one compaction
    group's `Levels`: deleting and inserting runs, adding sub-levels and
    applying the runs a compaction task deleted and produced. */
module HummockLevels {
  import opened Wrappers
  import opened HummockTypes

  // The messages of the errors and panics modelled below.
  const LEVEL_NOT_CONCAT: string := "sstables of the level are not concat-able"
  const SUB_LEVEL_OUT_OF_RANGE: string := "sub-level index out of range"
  const SUB_LEVEL_NOT_CONCAT: string := "sstables of the sub-level are not concat-able"
  const SUB_LEVEL_NOT_NEWEST: string := "inserted new level is not the newest"
  const INSERTION_OUT_OF_RANGE: string := "insertion index out of range"
  const LEVEL_OUT_OF_RANGE: string := "level index out of range"
  const TARGET_SUB_LEVEL_MISSING: string := "should find the level to insert into when applying compaction generated delta"

  // ---------------------------------------------------------------------
  // level_delete_ssts / level_insert_ssts

  /** `retain`: the runs of `s` whose id is not in `ids`, in their order. */
  function RetainNotDeleted(s: seq<SstableInfo>, ids: set<nat>): (r: seq<SstableInfo>)
    ensures multiset(r) <= multiset(s)
    ensures forall t | t in multiset(r) :: t.sstId !in ids
    ensures forall t | t in multiset(s) && t.sstId !in ids :: multiset(r)[t] == multiset(s)[t]
  {
    if s == [] then []
    else
      assert s == [s[0]] + s[1..];
      if s[0].sstId in ids then RetainNotDeleted(s[1..], ids)
      else [s[0]] + RetainNotDeleted(s[1..], ids)
  }

  /** Nothing is dropped exactly when no run's id is in `ids`. */
  lemma {:induction false} RetainNotDeletedLength(s: seq<SstableInfo>, ids: set<nat>)
    ensures |RetainNotDeleted(s, ids)| <= |s|
    ensures |RetainNotDeleted(s, ids)| == |s| <==> forall t | t in s :: t.sstId !in ids
  {
    if s != [] {
      assert s == [s[0]] + s[1..];
      RetainNotDeletedLength(s[1..], ids);
    }
  }

  lemma SortedTail(s: seq<SstableInfo>)
    requires s != [] && SortedByKeyRange(s)
    ensures SortedByKeyRange(s[1..])
    ensures forall t | t in s[1..] :: KeyRangeLe(s[0].keyRange, t.keyRange)
  {
    forall t | t in s[1..] ensures KeyRangeLe(s[0].keyRange, t.keyRange) {
      var m :| 0 <= m < |s[1..]| && s[1..][m] == t;
      assert s[m + 1] == t;
    }
  }

  lemma DisjointTail(s: seq<SstableInfo>)
    requires s != [] && PairwiseDisjoint(s)
    ensures PairwiseDisjoint(s[1..])
    ensures forall t | t in s[1..] :: EndsBefore(s[0], t)
  {
    forall t | t in s[1..] ensures EndsBefore(s[0], t) {
      var m :| 0 <= m < |s[1..]| && s[1..][m] == t;
      assert s[m + 1] == t;
    }
  }

  /** Dropping runs keeps the others in their order, so a level sorted by
      key range stays sorted. */
  lemma {:induction false} RetainNotDeletedSorted(s: seq<SstableInfo>, ids: set<nat>)
    requires SortedByKeyRange(s)
    ensures SortedByKeyRange(RetainNotDeleted(s, ids))
  {
    if s != [] {
      SortedTail(s);
      var rest := RetainNotDeleted(s[1..], ids);
      RetainNotDeletedSorted(s[1..], ids);
      if s[0].sstId !in ids {
        var r := [s[0]] + rest;
        forall i, j | 0 <= i < j < |r| ensures KeyRangeLe(r[i].keyRange, r[j].keyRange) {
          assert r[j] == rest[j - 1] && rest[j - 1] in multiset(rest);
          if i > 0 { assert r[i] == rest[i - 1]; }
        }
      }
    }
  }

  /** Dropping runs keeps runs that did not overlap pairwise apart. */
  lemma {:induction false} RetainNotDeletedDisjoint(s: seq<SstableInfo>, ids: set<nat>)
    requires PairwiseDisjoint(s)
    ensures PairwiseDisjoint(RetainNotDeleted(s, ids))
  {
    if s != [] {
      DisjointTail(s);
      var rest := RetainNotDeleted(s[1..], ids);
      RetainNotDeletedDisjoint(s[1..], ids);
      if s[0].sstId !in ids {
        var r := [s[0]] + rest;
        forall i, j | 0 <= i < j < |r| ensures EndsBefore(r[i], r[j]) {
          if i > 0 {
            assert r[i] == rest[i - 1] && r[j] == rest[j - 1];
          } else {
            assert rest[j - 1] in multiset(rest);
            assert rest[j - 1] in s[1..];
          }
        }
      }
    }
  }

  lemma RetainNotDeletedConcat(s: seq<SstableInfo>, ids: set<nat>)
    ensures SortedByKeyRange(s) ==> SortedByKeyRange(RetainNotDeleted(s, ids))
    ensures ValidRanges(s) && CanConcat(s) ==> CanConcat(RetainNotDeleted(s, ids))
  {
    if SortedByKeyRange(s) {
      RetainNotDeletedSorted(s, ids);
    }
    if ValidRanges(s) && CanConcat(s) {
      CanConcatPairwise(s);
      RetainNotDeletedDisjoint(s, ids);
    }
  }

  /** `level_delete_ssts`: drops the runs whose id is in `ids`, resets the
      size counters to the sums over the runs left, and reports whether any
      run was dropped. The runs left keep their order, so a sorted level
      stays sorted and a concat-able one (with well-formed key ranges) stays
      concat-able. */
  function LevelDeleteSsts(l: Level, ids: set<nat>): (r: (Level, bool))
    ensures SizesConsistent(r.0)
    ensures forall t :: t in r.0.tableInfos <==> t in l.tableInfos && t.sstId !in ids
    ensures multiset(r.0.tableInfos) <= multiset(l.tableInfos)
    ensures r.0.levelIdx == l.levelIdx && r.0.levelType == l.levelType && r.0.subLevelId == l.subLevelId
    ensures r.1 <==> exists t | t in l.tableInfos :: t.sstId in ids
    ensures SortedByKeyRange(l.tableInfos) ==> SortedByKeyRange(r.0.tableInfos)
    ensures ValidRanges(l.tableInfos) && CanConcat(l.tableInfos) ==> CanConcat(r.0.tableInfos)
  {
    var kept := RetainNotDeleted(l.tableInfos, ids);
    RetainNotDeletedLength(l.tableInfos, ids);
    RetainNotDeletedConcat(l.tableInfos, ids);
    assert forall t :: t in kept <==> t in l.tableInfos && t.sstId !in ids by {
      forall t ensures t in kept <==> t in l.tableInfos && t.sstId !in ids {
        assert t in kept <==> t in multiset(kept);
        assert t in l.tableInfos <==> t in multiset(l.tableInfos);
      }
    }
    (l.(tableInfos := kept,
        totalFileSize := SumSizes(kept, FileSize),
        uncompressedFileSize := SumSizes(kept, UncompressedSize)),
     |kept| != |l.tableInfos|)
  }

  /** `level_insert_ssts`: adds the runs' sizes, sorts the level by key
      range, turns an overlapping level non-overlapping and fails when the
      sorted runs cannot be concatenated. */
  function LevelInsertSsts(l: Level, ins: seq<SstableInfo>): (r: Result<Level, string>)
  {
    var sorted := SortByKeyRange(l.tableInfos + ins);
    if !CanConcat(sorted) then Failure(LEVEL_NOT_CONCAT)
    else
      Success(l.(levelType := if l.levelType == Overlapping then Nonoverlapping else l.levelType,
                 tableInfos := sorted,
                 totalFileSize := l.totalFileSize + SumSizes(ins, FileSize),
                 uncompressedFileSize := l.uncompressedFileSize + SumSizes(ins, UncompressedSize)))
  }

  lemma LevelInsertSstsSpec(l: Level, ins: seq<SstableInfo>)
    ensures LevelInsertSsts(l, ins).Failure? <==> !CanConcat(SortByKeyRange(l.tableInfos + ins))
    ensures LevelInsertSsts(l, ins).Success? ==>
      var r := LevelInsertSsts(l, ins).value;
      && CanConcat(r.tableInfos) && SortedByKeyRange(r.tableInfos)
      && multiset(r.tableInfos) == multiset(l.tableInfos) + multiset(ins)
      && r.levelType != Overlapping
      && (l.levelType != Overlapping ==> r.levelType == l.levelType)
      && r.levelIdx == l.levelIdx && r.subLevelId == l.subLevelId
      && (SizesConsistent(l) ==> SizesConsistent(r))
  {
    var r := LevelInsertSsts(l, ins);
    SortByKeyRangeSorted(l.tableInfos + ins);
    if r.Success? {
      SumSizesSort(l.tableInfos + ins, FileSize);
      SumSizesSort(l.tableInfos + ins, UncompressedSize);
      SumSizesAppend(l.tableInfos, ins, FileSize);
      SumSizesAppend(l.tableInfos, ins, UncompressedSize);
    }
  }

  // ---------------------------------------------------------------------
  // Sub-levels of L0

  /** Sub-level ids strictly increase from the oldest to the newest. */
  predicate SubLevelIdsAscending(ls: seq<Level>) {
    forall i, j | 0 <= i < j < |ls| :: ls[i].subLevelId < ls[j].subLevelId
  }

  /** `new_sub_level`: a sub-level whose counters are the sums over its runs. */
  function NewSubLevel(id: nat, levelType: LevelType, infos: seq<SstableInfo>): (r: Level)
    ensures SizesConsistent(r)
    ensures r.levelIdx == 0 && r.subLevelId == id && r.levelType == levelType && r.tableInfos == infos
  {
    Level(0, levelType, infos, SumSizes(infos, FileSize), id, SumSizes(infos, UncompressedSize))
  }

  lemma {:induction false} SumLevelSizesUpdate(ls: seq<Level>, i: nat, l: Level, k: SizeKind)
    requires i < |ls|
    ensures SumLevelSizes(ls[i := l], k) == SumLevelSizes(ls, k) - LevelSize(ls[i], k) + LevelSize(l, k)
  {
    if i > 0 {
      assert ls[i := l][1..] == ls[1..][i - 1 := l];
      SumLevelSizesUpdate(ls[1..], i - 1, l, k);
    } else {
      assert ls[i := l][1..] == ls[1..];
    }
  }

  lemma SumLevelSizesInsert(ls: seq<Level>, pos: nat, l: Level, k: SizeKind)
    requires pos <= |ls|
    ensures SumLevelSizes(ls[..pos] + [l] + ls[pos..], k) == SumLevelSizes(ls, k) + LevelSize(l, k)
  {
    SumLevelSizesAppend(ls[..pos] + [l], ls[pos..], k);
    SumLevelSizesAppend(ls[..pos], [l], k);
    SumLevelSizesAppend(ls[..pos], ls[pos..], k);
    assert ls[..pos] + ls[pos..] == ls;
    assert [l][1..] == [];
  }

  /** `add_ssts_to_sub_level`: appends runs to the sub-level at `idx`, adds
      their sizes to it and to L0, and for a non-overlapping sub-level sorts
      it by key range and fails when it cannot be concatenated. */
  function AddSstsToSubLevel(l0: OverlappingLevel, idx: nat, ins: seq<SstableInfo>): (r: Result<OverlappingLevel, string>)
  {
    if idx >= |l0.subLevels| then Failure(SUB_LEVEL_OUT_OF_RANGE)
    else
      var s := l0.subLevels[idx];
      var runs := if s.levelType == Nonoverlapping then SortByKeyRange(s.tableInfos + ins) else s.tableInfos + ins;
      if s.levelType == Nonoverlapping && !CanConcat(runs) then Failure(SUB_LEVEL_NOT_CONCAT)
      else
        var s' := s.(tableInfos := runs,
                     totalFileSize := s.totalFileSize + SumSizes(ins, FileSize),
                     uncompressedFileSize := s.uncompressedFileSize + SumSizes(ins, UncompressedSize));
        Success(OverlappingLevel(l0.subLevels[idx := s'],
                                 l0.totalFileSize + SumSizes(ins, FileSize),
                                 l0.uncompressedFileSize + SumSizes(ins, UncompressedSize)))
  }

  lemma AddSstsToSubLevelSpec(l0: OverlappingLevel, idx: nat, ins: seq<SstableInfo>)
    ensures AddSstsToSubLevel(l0, idx, ins).Success? ==>
      var r := AddSstsToSubLevel(l0, idx, ins).value;
      && |r.subLevels| == |l0.subLevels|
      && (forall i | 0 <= i < |r.subLevels| && i != idx :: r.subLevels[i] == l0.subLevels[i])
      && (forall i | 0 <= i < |r.subLevels| :: r.subLevels[i].subLevelId == l0.subLevels[i].subLevelId)
      && multiset(r.subLevels[idx].tableInfos) == multiset(l0.subLevels[idx].tableInfos) + multiset(ins)
      && (r.subLevels[idx].levelType == Nonoverlapping ==> CanConcat(r.subLevels[idx].tableInfos))
      && (L0SizesConsistent(l0) ==> L0SizesConsistent(r))
      && (SizesConsistent(l0.subLevels[idx]) ==> SizesConsistent(r.subLevels[idx]))
    ensures idx >= |l0.subLevels| ==> AddSstsToSubLevel(l0, idx, ins).Failure?
  {
    var r := AddSstsToSubLevel(l0, idx, ins);
    if r.Success? {
      var s := l0.subLevels[idx];
      SumSizesAppend(s.tableInfos, ins, FileSize);
      SumSizesAppend(s.tableInfos, ins, UncompressedSize);
      SumSizesSort(s.tableInfos + ins, FileSize);
      SumSizesSort(s.tableInfos + ins, UncompressedSize);
      SumLevelSizesUpdate(l0.subLevels, idx, r.value.subLevels[idx], FileSize);
      SumLevelSizesUpdate(l0.subLevels, idx, r.value.subLevels[idx], UncompressedSize);
    }
  }

  /** `insert_new_sub_level`: `U64_MAX` as id inserts nothing. Without a hint
      the new sub-level is appended and its id must exceed the newest one's;
      with a hint it is inserted at that position. */
  function InsertNewSubLevel(l0: OverlappingLevel, id: nat, levelType: LevelType,
                             ins: seq<SstableInfo>, hint: Option<nat>): (r: Result<OverlappingLevel, string>)
  {
    if id == U64_MAX then Success(l0)
    else if hint.None? && |l0.subLevels| > 0 && l0.subLevels[|l0.subLevels| - 1].subLevelId >= id then
      Failure(SUB_LEVEL_NOT_NEWEST)
    else
      var pos := if hint.Some? then hint.value else |l0.subLevels|;
      if pos > |l0.subLevels| then Failure(INSERTION_OUT_OF_RANGE)
      else
        var lv := NewSubLevel(id, levelType, ins);
        Success(OverlappingLevel(l0.subLevels[..pos] + [lv] + l0.subLevels[pos..],
                                 l0.totalFileSize + lv.totalFileSize,
                                 l0.uncompressedFileSize + lv.uncompressedFileSize))
  }

  /** Appending a sub-level (no hint): it goes after every existing one, the
      ids stay ascending, and the counters stay consistent. */
  lemma InsertNewSubLevelAppendSpec(l0: OverlappingLevel, id: nat, levelType: LevelType, ins: seq<SstableInfo>)
    requires id != U64_MAX
    ensures var r := InsertNewSubLevel(l0, id, levelType, ins, None);
      && (r.Success? <==> (|l0.subLevels| == 0 || l0.subLevels[|l0.subLevels| - 1].subLevelId < id))
      && (r.Success? ==>
            && r.value.subLevels == l0.subLevels + [NewSubLevel(id, levelType, ins)]
            && (SubLevelIdsAscending(l0.subLevels) ==> SubLevelIdsAscending(r.value.subLevels))
            && (L0SizesConsistent(l0) ==> L0SizesConsistent(r.value)))
  {
    var r := InsertNewSubLevel(l0, id, levelType, ins, None);
    if r.Success? {
      var n := |l0.subLevels|;
      assert l0.subLevels[..n] == l0.subLevels && l0.subLevels[n..] == [];
      SumLevelSizesInsert(l0.subLevels, n, NewSubLevel(id, levelType, ins), FileSize);
      SumLevelSizesInsert(l0.subLevels, n, NewSubLevel(id, levelType, ins), UncompressedSize);
    }
  }

  /** Inserting at a hint: the sub-level lands at exactly that position, the
      others keep their order, and the counters stay consistent. */
  lemma InsertNewSubLevelAtSpec(l0: OverlappingLevel, id: nat, levelType: LevelType, ins: seq<SstableInfo>, pos: nat)
    requires id != U64_MAX
    ensures var r := InsertNewSubLevel(l0, id, levelType, ins, Some(pos));
      && (r.Success? <==> pos <= |l0.subLevels|)
      && (r.Success? ==>
            && |r.value.subLevels| == |l0.subLevels| + 1
            && r.value.subLevels[pos] == NewSubLevel(id, levelType, ins)
            && r.value.subLevels[..pos] == l0.subLevels[..pos]
            && r.value.subLevels[pos + 1..] == l0.subLevels[pos..]
            && (L0SizesConsistent(l0) ==> L0SizesConsistent(r.value)))
  {
    var r := InsertNewSubLevel(l0, id, levelType, ins, Some(pos));
    if r.Success? {
      SumLevelSizesInsert(l0.subLevels, pos, NewSubLevel(id, levelType, ins), FileSize);
      SumLevelSizesInsert(l0.subLevels, pos, NewSubLevel(id, levelType, ins), UncompressedSize);
    }
  }

  // ---------------------------------------------------------------------
  // check_deleted_sst_exist

  /** The ids of the runs in a list of levels. */
  function LevelsRunIds(ls: seq<Level>): set<nat> {
    if ls == [] then {} else LevelsRunIds(ls[..|ls| - 1]) + SstIds(ls[|ls| - 1].tableInfos)
  }

  /** The run ids of the level with index `lv` (0 is all of L0). */
  function RunIdsAt(levels: Levels, lv: nat): set<nat> {
    if lv == 0 then LevelsRunIds(levels.l0.subLevels)
    else if lv <= |levels.levels| then SstIds(levels.levels[lv - 1].tableInfos)
    else {}
  }

  /** The run ids of all levels listed in `dl`. */
  function ListedRunIds(levels: Levels, dl: set<nat>): set<nat> {
    set lv, id | lv in dl && id in RunIdsAt(levels, lv) :: id
  }

  /** What `check_deleted_sst_exist` answers: whether every id to delete is
      the id of a run in one of the listed levels; indexing a level that does
      not exist panics. */
  function DeletedSstsExist(levels: Levels, dl: set<nat>, ids: set<nat>): Result<bool, string> {
    if exists lv | lv in dl :: lv > |levels.levels| then Failure(LEVEL_OUT_OF_RANGE)
    else Success(ids <= ListedRunIds(levels, dl))
  }

  /** Removes the id of each run of `runs` from `remaining`. */
  method RemoveRunIds(remaining: set<nat>, runs: seq<SstableInfo>) returns (r: set<nat>)
    ensures r == remaining - SstIds(runs)
  {
    r := remaining;
    var j := 0;
    while j < |runs|
      invariant j <= |runs|
      invariant r == remaining - SstIds(runs[..j])
    {
      assert runs[..j + 1] == runs[..j] + [runs[j]];
      r := r - {runs[j].sstId};
      j := j + 1;
    }
    assert runs[..j] == runs;
  }

  /** Removes the id of each run of each sub-level from `remaining`. */
  method RemoveSubLevelRunIds(remaining: set<nat>, subLevels: seq<Level>) returns (r: set<nat>)
    ensures r == remaining - LevelsRunIds(subLevels)
  {
    r := remaining;
    var i := 0;
    while i < |subLevels|
      invariant i <= |subLevels|
      invariant r == remaining - LevelsRunIds(subLevels[..i])
    {
      assert subLevels[..i + 1][..i] == subLevels[..i];
      r := RemoveRunIds(r, subLevels[i].tableInfos);
      i := i + 1;
    }
    assert subLevels[..i] == subLevels;
  }

  /** Removes the run ids of the level with index `lv` from `remaining`. */
  method RemoveLevelRunIds(remaining: set<nat>, levels: Levels, lv: nat) returns (r: set<nat>)
    requires lv <= |levels.levels|
    ensures r == remaining - RunIdsAt(levels, lv)
  {
    if lv == 0 {
      r := RemoveSubLevelRunIds(remaining, levels.l0.subLevels);
    } else {
      r := RemoveRunIds(remaining, levels.levels[lv - 1].tableInfos);
    }
  }

  /** `check_deleted_sst_exist`: removes the ids of the runs of each listed
      level from a copy of the id set and answers whether it became empty. */
  method CheckDeletedSstExist(levels: Levels, dl: set<nat>, ids: set<nat>) returns (r: Result<bool, string>)
    ensures r == DeletedSstsExist(levels, dl, ids)
  {
    var remaining := ids;
    var todo := dl;
    ghost var done: set<nat> := {};
    while todo != {}
      invariant todo + done == dl && todo !! done
      invariant forall lv | lv in done :: lv <= |levels.levels|
      invariant remaining == ids - ListedRunIds(levels, done)
      decreases |todo|
    {
      var lv :| lv in todo;
      if lv > |levels.levels| {
        assert lv in dl;
        return Failure(LEVEL_OUT_OF_RANGE);
      }
      remaining := RemoveLevelRunIds(remaining, levels, lv);
      ListedRunIdsAdd(levels, done, lv);
      assert remaining == ids - ListedRunIds(levels, done + {lv});
      todo := todo - {lv};
      done := done + {lv};
    }
    assert done == dl;
    assert !exists lv | lv in dl :: lv > |levels.levels|;
    assert remaining == {} <==> ids <= ListedRunIds(levels, dl) by {
      if ids <= ListedRunIds(levels, dl) {
        assert remaining == {};
      }
      if remaining == {} {
        forall id | id in ids ensures id in ListedRunIds(levels, dl) {
          assert id !in remaining;
        }
      }
    }
    return Success(remaining == {});
  }

  lemma ListedRunIdsAdd(levels: Levels, done: set<nat>, lv: nat)
    ensures ListedRunIds(levels, done + {lv}) == ListedRunIds(levels, done) + RunIdsAt(levels, lv)
  {
    forall id | id in RunIdsAt(levels, lv)
      ensures id in ListedRunIds(levels, done + {lv})
    {
      assert lv in done + {lv};
    }
  }

  // ---------------------------------------------------------------------
  // apply_compact_ssts

  /** `partition_point` over sub-level ids: the first sub-level whose id is
      not below `id` (the length when there is none). */
  function PartitionPoint(ls: seq<Level>, id: nat): (r: nat)
    ensures r <= |ls|
    ensures forall i | 0 <= i < r :: ls[i].subLevelId < id
    ensures r < |ls| ==> ls[r].subLevelId >= id
  {
    if ls == [] || ls[0].subLevelId >= id then 0 else 1 + PartitionPoint(ls[1..], id)
  }

  /** A level keeps its index, type and sub-level id. */
  predicate SameHeader(a: Level, b: Level) {
    a.levelIdx == b.levelIdx && a.levelType == b.levelType && a.subLevelId == b.subLevelId
  }

  /** A group keeps its id, parent and member tables. */
  predicate SameGroup(a: Levels, b: Levels) {
    a.groupId == b.groupId && a.parentGroupId == b.parentGroupId && a.memberTableIds == b.memberTableIds
  }

  /** Drops the runs whose id is in `ids` from every sub-level of L0 (when
      0 is listed) and from every listed non-L0 level: each level keeps
      exactly its runs not deleted there, its header and its order, and its
      counters become the sums over the runs left. */
  function DeleteFromLevels(levels: Levels, dl: set<nat>, ids: set<nat>): (r: Levels)
    ensures SameGroup(r, levels)
    ensures |r.levels| == |levels.levels| && |r.l0.subLevels| == |levels.l0.subLevels|
    ensures r.l0.totalFileSize == levels.l0.totalFileSize && r.l0.uncompressedFileSize == levels.l0.uncompressedFileSize
    ensures forall i | 0 <= i < |r.levels| :: SameHeader(r.levels[i], levels.levels[i])
    ensures forall j | 0 <= j < |r.l0.subLevels| :: SameHeader(r.l0.subLevels[j], levels.l0.subLevels[j])
    ensures forall i, t | 0 <= i < |r.levels| ::
      t in r.levels[i].tableInfos <==> t in levels.levels[i].tableInfos && !(i + 1 in dl && t.sstId in ids)
    ensures forall j, t | 0 <= j < |r.l0.subLevels| ::
      t in r.l0.subLevels[j].tableInfos <==> t in levels.l0.subLevels[j].tableInfos && !(0 in dl && t.sstId in ids)
    ensures forall i | 0 <= i < |r.levels| :: SizesConsistent(levels.levels[i]) ==> SizesConsistent(r.levels[i])
    ensures forall i | 0 <= i < |r.levels| ::
      && (SortedByKeyRange(levels.levels[i].tableInfos) ==> SortedByKeyRange(r.levels[i].tableInfos))
      && (ValidRanges(levels.levels[i].tableInfos) && CanConcat(levels.levels[i].tableInfos) ==> CanConcat(r.levels[i].tableInfos))
    ensures forall j | 0 <= j < |r.l0.subLevels| ::
      ValidRanges(levels.l0.subLevels[j].tableInfos) && CanConcat(levels.l0.subLevels[j].tableInfos) ==>
        CanConcat(r.l0.subLevels[j].tableInfos)
  {
    var subs := levels.l0.subLevels;
    var ls := levels.levels;
    levels.(l0 := if 0 in dl then
                    levels.l0.(subLevels := seq(|subs|, i requires 0 <= i < |subs| => LevelDeleteSsts(subs[i], ids).0))
                  else levels.l0,
            levels := seq(|ls|, i requires 0 <= i < |ls| => if i + 1 in dl then LevelDeleteSsts(ls[i], ids).0 else ls[i]))
  }

  /** `r` is level `l` after `level_insert_ssts(l, ins)` succeeded: it holds
      the runs of both, sorted and concat-able, an overlapping level has
      become non-overlapping, and consistent counters stay consistent. */
  predicate InsertedInto(l: Level, ins: seq<SstableInfo>, r: Level) {
    && multiset(r.tableInfos) == multiset(l.tableInfos) + multiset(ins)
    && CanConcat(r.tableInfos) && SortedByKeyRange(r.tableInfos)
    && r.levelType == (if l.levelType == Overlapping then Nonoverlapping else l.levelType)
    && r.levelIdx == l.levelIdx && r.subLevelId == l.subLevelId
    && (SizesConsistent(l) ==> SizesConsistent(r))
  }

  /** Inserts the runs a compaction produced into their target level; an L0
      target must be an existing sub-level with exactly the given id (the
      first sub-level whose id is not below it). Only the target changes. */
  function InsertCompacted(levels: Levels, s: GroupDeltasSummary): (r: Result<Levels, string>)
    ensures s.insertTableInfos == [] ==> r == Success(levels)
    ensures s.insertTableInfos != [] && s.insertSstLevelId > |levels.levels| ==> r.Failure?
    ensures r.Success? ==>
      && SameGroup(r.value, levels)
      && |r.value.levels| == |levels.levels| && |r.value.l0.subLevels| == |levels.l0.subLevels|
      && r.value.l0.totalFileSize == levels.l0.totalFileSize
      && r.value.l0.uncompressedFileSize == levels.l0.uncompressedFileSize
      && (forall i | 0 <= i < |levels.levels| ::
            if s.insertTableInfos != [] && s.insertSstLevelId == i + 1
            then InsertedInto(levels.levels[i], s.insertTableInfos, r.value.levels[i])
            else r.value.levels[i] == levels.levels[i])
      && (forall j | 0 <= j < |levels.l0.subLevels| ::
            if s.insertTableInfos != [] && s.insertSstLevelId == 0 && j == PartitionPoint(levels.l0.subLevels, s.insertSubLevelId)
            then levels.l0.subLevels[j].subLevelId == s.insertSubLevelId &&
                 InsertedInto(levels.l0.subLevels[j], s.insertTableInfos, r.value.l0.subLevels[j])
            else r.value.l0.subLevels[j] == levels.l0.subLevels[j])
  {
    var ins := s.insertTableInfos;
    if ins == [] then Success(levels)
    else if s.insertSstLevelId == 0 then
      var subs := levels.l0.subLevels;
      var idx := PartitionPoint(subs, s.insertSubLevelId);
      if !(idx < |subs| && subs[idx].subLevelId == s.insertSubLevelId) then
        Failure(TARGET_SUB_LEVEL_MISSING)
      else
        LevelInsertSstsSpec(subs[idx], ins);
        var r := LevelInsertSsts(subs[idx], ins);
        if r.Failure? then Failure(r.error)
        else Success(levels.(l0 := levels.l0.(subLevels := subs[idx := r.value])))
    else if s.insertSstLevelId > |levels.levels| then Failure(LEVEL_OUT_OF_RANGE)
    else
      LevelInsertSstsSpec(levels.levels[s.insertSstLevelId - 1], ins);
      var r := LevelInsertSsts(levels.levels[s.insertSstLevelId - 1], ins);
      if r.Failure? then Failure(r.error)
      else Success(levels.(levels := levels.levels[s.insertSstLevelId - 1 := r.value]))
  }

  /** The sub-levels that still hold a run, in their order. */
  function NonEmptySubLevels(ls: seq<Level>): (r: seq<Level>)
    ensures forall l | l in r :: l.tableInfos != []
    ensures forall l | l in r :: l in ls
    ensures forall l | l in ls && l.tableInfos != [] :: l in r
  {
    if ls == [] then []
    else
      assert ls == [ls[0]] + ls[1..];
      if ls[0].tableInfos == [] then NonEmptySubLevels(ls[1..])
      else [ls[0]] + NonEmptySubLevels(ls[1..])
  }

  /** Purges the empty sub-levels and recomputes L0's counters from the
      sub-levels left. */
  function PurgeEmptySubLevels(levels: Levels): Levels {
    var subs := NonEmptySubLevels(levels.l0.subLevels);
    levels.(l0 := OverlappingLevel(subs, SumLevelSizes(subs, FileSize), SumLevelSizes(subs, UncompressedSize)))
  }

  /** `apply_compact_ssts`. A delta whose runs to delete are not all found in
      the listed levels is ignored (it came from an expired task). */
  function ApplyCompactSsts(levels: Levels, s: GroupDeltasSummary): Result<Levels, string> {
    var check := DeletedSstsExist(levels, s.deleteSstLevels, s.deleteSstIds);
    if check.Failure? then Failure(check.error)
    else if !check.value then Success(levels)
    else
      var inserted := InsertCompacted(DeleteFromLevels(levels, s.deleteSstLevels, s.deleteSstIds), s);
      if inserted.Failure? then inserted
      else if 0 in s.deleteSstLevels then Success(PurgeEmptySubLevels(inserted.value))
      else inserted
  }

  /** A level's counters equal the sums over its runs, on every level. */
  predicate AllSizesConsistent(ls: seq<Level>) {
    forall i | 0 <= i < |ls| :: SizesConsistent(ls[i])
  }

  /** A delta from an expired task leaves the group as it was. */
  lemma ApplyCompactSstsIgnoresExpired(levels: Levels, s: GroupDeltasSummary)
    requires DeletedSstsExist(levels, s.deleteSstLevels, s.deleteSstIds) == Success(false)
    ensures ApplyCompactSsts(levels, s) == Success(levels)
  {
  }

  /** A compaction keeps the group's identity, members and level count, and
      keeps every non-L0 level's counters equal to the sums over its runs. */
  lemma ApplyCompactSstsKeepsLevels(levels: Levels, s: GroupDeltasSummary)
    requires ApplyCompactSsts(levels, s).Success?
    ensures var r := ApplyCompactSsts(levels, s).value;
      && r.groupId == levels.groupId && r.parentGroupId == levels.parentGroupId
      && r.memberTableIds == levels.memberTableIds
      && |r.levels| == |levels.levels|
      && (AllSizesConsistent(levels.levels) ==> AllSizesConsistent(r.levels))
  {
    var check := DeletedSstsExist(levels, s.deleteSstLevels, s.deleteSstIds);
    if check == Success(true) {
      var d := DeleteFromLevels(levels, s.deleteSstLevels, s.deleteSstIds);
      var n := InsertCompacted(d, s).value;
      if AllSizesConsistent(levels.levels) {
        assert AllSizesConsistent(d.levels);
        forall i | 0 <= i < |n.levels| ensures SizesConsistent(n.levels[i]) {
          assert SizesConsistent(d.levels[i]);
        }
      }
    }
  }

  /** Some sub-level of `ls` holds run `t`. */
  predicate HasRun(ls: seq<Level>, t: SstableInfo) {
    exists j | 0 <= j < |ls| :: t in ls[j].tableInfos
  }

  /** Purging the empty sub-levels loses no run. */
  lemma NonEmptySubLevelsRuns(ls: seq<Level>, t: SstableInfo)
    ensures HasRun(NonEmptySubLevels(ls), t) <==> HasRun(ls, t)
  {
    var ne := NonEmptySubLevels(ls);
    if HasRun(ls, t) {
      var j :| 0 <= j < |ls| && t in ls[j].tableInfos;
      assert ls[j] in ne;
      var k :| 0 <= k < |ne| && ne[k] == ls[j];
    }
    if HasRun(ne, t) {
      var k :| 0 <= k < |ne| && t in ne[k].tableInfos;
      assert ne[k] in ls;
      var j :| 0 <= j < |ls| && ls[j] == ne[k];
    }
  }

  /** The runs of L0 after the deletion: those not deleted there. */
  lemma DeleteFromLevelsL0Runs(levels: Levels, dl: set<nat>, ids: set<nat>, t: SstableInfo)
    ensures HasRun(DeleteFromLevels(levels, dl, ids).l0.subLevels, t) <==>
      HasRun(levels.l0.subLevels, t) && !(0 in dl && t.sstId in ids)
  {
    var d := DeleteFromLevels(levels, dl, ids);
    if HasRun(d.l0.subLevels, t) {
      var j :| 0 <= j < |d.l0.subLevels| && t in d.l0.subLevels[j].tableInfos;
      assert t in levels.l0.subLevels[j].tableInfos;
    }
    if HasRun(levels.l0.subLevels, t) && !(0 in dl && t.sstId in ids) {
      var j :| 0 <= j < |levels.l0.subLevels| && t in levels.l0.subLevels[j].tableInfos;
      assert t in d.l0.subLevels[j].tableInfos;
    }
  }

  /** The runs of L0 after the insertion: those before, and the inserted
      runs when L0 is the target. */
  lemma InsertCompactedL0Runs(levels: Levels, s: GroupDeltasSummary, t: SstableInfo)
    requires InsertCompacted(levels, s).Success?
    ensures HasRun(InsertCompacted(levels, s).value.l0.subLevels, t) <==>
      HasRun(levels.l0.subLevels, t) || (s.insertSstLevelId == 0 && t in s.insertTableInfos)
  {
    var n := InsertCompacted(levels, s).value;
    var subs := levels.l0.subLevels;
    if s.insertTableInfos != [] && s.insertSstLevelId == 0 {
      var idx := PartitionPoint(subs, s.insertSubLevelId);
      assert idx < |subs|;
      assert InsertedInto(subs[idx], s.insertTableInfos, n.l0.subLevels[idx]);
      assert forall u :: u in n.l0.subLevels[idx].tableInfos <==> u in subs[idx].tableInfos || u in s.insertTableInfos by {
        forall u ensures u in n.l0.subLevels[idx].tableInfos <==> u in subs[idx].tableInfos || u in s.insertTableInfos {
          assert u in n.l0.subLevels[idx].tableInfos <==> u in multiset(n.l0.subLevels[idx].tableInfos);
          assert u in subs[idx].tableInfos <==> u in multiset(subs[idx].tableInfos);
          assert u in s.insertTableInfos <==> u in multiset(s.insertTableInfos);
        }
      }
      if HasRun(n.l0.subLevels, t) {
        var j :| 0 <= j < |n.l0.subLevels| && t in n.l0.subLevels[j].tableInfos;
        if j != idx {
          assert t in subs[j].tableInfos;
        }
      }
      if HasRun(subs, t) {
        var j :| 0 <= j < |subs| && t in subs[j].tableInfos;
        assert t in n.l0.subLevels[j].tableInfos;
      }
      if t in s.insertTableInfos {
        assert t in n.l0.subLevels[idx].tableInfos;
      }
    } else {
      assert n.l0.subLevels == subs by {
        forall j | 0 <= j < |subs| ensures n.l0.subLevels[j] == subs[j] {}
      }
    }
  }

  /** Level `after` holds exactly the runs of level `before` (listed level
      number `lv`) that the compaction `s` did not delete there, plus the
      inserted runs when `lv` is the target. */
  ghost predicate CompactedRuns(before: seq<SstableInfo>, after: seq<SstableInfo>, lv: nat, s: GroupDeltasSummary) {
    forall t :: t in after <==>
      (t in before && !(lv in s.deleteSstLevels && t.sstId in s.deleteSstIds))
      || (s.insertSstLevelId == lv && t in s.insertTableInfos)
  }

  /** What a compaction that is not expired does to the runs of L1..Ln:
      every listed level loses exactly the runs whose id was deleted, the
      target level gains the inserted runs, and every other run stays in its
      level. */
  lemma ApplyCompactSstsContents(levels: Levels, s: GroupDeltasSummary)
    requires DeletedSstsExist(levels, s.deleteSstLevels, s.deleteSstIds) == Success(true)
    requires ApplyCompactSsts(levels, s).Success?
    ensures var r := ApplyCompactSsts(levels, s).value;
      && |r.levels| == |levels.levels|
      && forall i | 0 <= i < |levels.levels| :: CompactedRuns(levels.levels[i].tableInfos, r.levels[i].tableInfos, i + 1, s)
  {
    ApplyCompactSstsKeepsLevels(levels, s);
    var r := ApplyCompactSsts(levels, s).value;
    forall i | 0 <= i < |levels.levels|
      ensures CompactedRuns(levels.levels[i].tableInfos, r.levels[i].tableInfos, i + 1, s)
    {
      ApplyCompactSstsLevelRuns(levels, s, i);
    }
  }

  /** The same for L0, whose runs are counted over all its sub-levels: the
      runs deleted from L0 are gone, the runs inserted into a sub-level are
      there, and every other run stays (the purge of empty sub-levels loses
      none). */
  lemma ApplyCompactSstsL0Contents(levels: Levels, s: GroupDeltasSummary)
    requires DeletedSstsExist(levels, s.deleteSstLevels, s.deleteSstIds) == Success(true)
    requires ApplyCompactSsts(levels, s).Success?
    ensures forall t :: HasRun(ApplyCompactSsts(levels, s).value.l0.subLevels, t) <==>
            (HasRun(levels.l0.subLevels, t) && !(0 in s.deleteSstLevels && t.sstId in s.deleteSstIds))
            || (s.insertSstLevelId == 0 && t in s.insertTableInfos)
  {
    forall t
      ensures HasRun(ApplyCompactSsts(levels, s).value.l0.subLevels, t) <==>
              (HasRun(levels.l0.subLevels, t) && !(0 in s.deleteSstLevels && t.sstId in s.deleteSstIds))
              || (s.insertSstLevelId == 0 && t in s.insertTableInfos)
    {
      ApplyCompactSstsL0Runs(levels, s, t);
    }
  }

  lemma ApplyCompactSstsLevelRuns(levels: Levels, s: GroupDeltasSummary, i: nat)
    requires DeletedSstsExist(levels, s.deleteSstLevels, s.deleteSstIds) == Success(true)
    requires ApplyCompactSsts(levels, s).Success?
    requires i < |levels.levels|
    ensures var r := ApplyCompactSsts(levels, s).value;
      && |r.levels| == |levels.levels|
      && CompactedRuns(levels.levels[i].tableInfos, r.levels[i].tableInfos, i + 1, s)
  {
    var ins := s.insertTableInfos;
    var d := DeleteFromLevels(levels, s.deleteSstLevels, s.deleteSstIds);
    var n := InsertCompacted(d, s).value;
    assert ApplyCompactSsts(levels, s).value.levels == n.levels;
    forall t
      ensures t in n.levels[i].tableInfos <==>
        (t in levels.levels[i].tableInfos && !(i + 1 in s.deleteSstLevels && t.sstId in s.deleteSstIds))
        || (s.insertSstLevelId == i + 1 && t in ins)
    {
      if ins != [] && s.insertSstLevelId == i + 1 {
        assert InsertedInto(d.levels[i], ins, n.levels[i]);
        assert t in n.levels[i].tableInfos <==> t in multiset(n.levels[i].tableInfos);
        assert t in d.levels[i].tableInfos <==> t in multiset(d.levels[i].tableInfos);
        assert t in ins <==> t in multiset(ins);
      } else {
        assert n.levels[i] == d.levels[i];
      }
    }
  }

  lemma ApplyCompactSstsL0Runs(levels: Levels, s: GroupDeltasSummary, t: SstableInfo)
    requires DeletedSstsExist(levels, s.deleteSstLevels, s.deleteSstIds) == Success(true)
    requires ApplyCompactSsts(levels, s).Success?
    ensures HasRun(ApplyCompactSsts(levels, s).value.l0.subLevels, t) <==>
      (HasRun(levels.l0.subLevels, t) && !(0 in s.deleteSstLevels && t.sstId in s.deleteSstIds))
      || (s.insertSstLevelId == 0 && t in s.insertTableInfos)
  {
    var d := DeleteFromLevels(levels, s.deleteSstLevels, s.deleteSstIds);
    var n := InsertCompacted(d, s).value;
    DeleteFromLevelsL0Runs(levels, s.deleteSstLevels, s.deleteSstIds, t);
    InsertCompactedL0Runs(d, s, t);
    if 0 in s.deleteSstLevels {
      NonEmptySubLevelsRuns(n.l0.subLevels, t);
    }
  }

  lemma AscendingTail(ls: seq<Level>)
    requires ls != [] && SubLevelIdsAscending(ls)
    ensures SubLevelIdsAscending(ls[1..])
    ensures forall l | l in ls[1..] :: ls[0].subLevelId < l.subLevelId
  {
    forall l | l in ls[1..] ensures ls[0].subLevelId < l.subLevelId {
      var m :| 0 <= m < |ls[1..]| && ls[1..][m] == l;
      assert ls[m + 1] == l;
    }
  }

  /** Purging empty sub-levels keeps the others in their order, so
      ascending sub-level ids stay ascending. */
  lemma {:induction false} NonEmptySubLevelsAscending(ls: seq<Level>)
    requires SubLevelIdsAscending(ls)
    ensures SubLevelIdsAscending(NonEmptySubLevels(ls))
  {
    if ls != [] {
      AscendingTail(ls);
      var rest := NonEmptySubLevels(ls[1..]);
      NonEmptySubLevelsAscending(ls[1..]);
      if ls[0].tableInfos != [] {
        var r := [ls[0]] + rest;
        forall i, j | 0 <= i < j < |r| ensures r[i].subLevelId < r[j].subLevelId {
          var b := rest[j - 1];
          assert r[j] == b;
          if i > 0 {
            assert rest[i - 1].subLevelId < b.subLevelId;
          } else {
            assert b in ls[1..];
          }
        }
      }
    }
  }

  /** A compaction keeps L0's sub-level ids ascending, and keeps every level
      of L1..Ln sorted by key range and concat-able when it was (and no key
      range in it is inverted): a listed level only loses runs, and the
      target level is sorted and checked after the insertion. */
  lemma ApplyCompactSstsKeepsOrder(levels: Levels, s: GroupDeltasSummary)
    requires ApplyCompactSsts(levels, s).Success?
    ensures var r := ApplyCompactSsts(levels, s).value;
      && (SubLevelIdsAscending(levels.l0.subLevels) ==> SubLevelIdsAscending(r.l0.subLevels))
      && |r.levels| == |levels.levels|
      && forall i | 0 <= i < |levels.levels| ::
           && SortedByKeyRange(levels.levels[i].tableInfos)
           && ValidRanges(levels.levels[i].tableInfos) && CanConcat(levels.levels[i].tableInfos)
           ==> SortedByKeyRange(r.levels[i].tableInfos) && CanConcat(r.levels[i].tableInfos)
  {
    ApplyCompactSstsKeepsLevels(levels, s);
    var check := DeletedSstsExist(levels, s.deleteSstLevels, s.deleteSstIds);
    if check == Success(true) {
      var d := DeleteFromLevels(levels, s.deleteSstLevels, s.deleteSstIds);
      var n := InsertCompacted(d, s).value;
      var r := ApplyCompactSsts(levels, s).value;
      assert r.levels == n.levels;
      if SubLevelIdsAscending(levels.l0.subLevels) {
        assert SubLevelIdsAscending(n.l0.subLevels) by {
          forall j | 0 <= j < |n.l0.subLevels|
            ensures n.l0.subLevels[j].subLevelId == levels.l0.subLevels[j].subLevelId
          {
            assert SameHeader(d.l0.subLevels[j], levels.l0.subLevels[j]);
          }
        }
        if 0 in s.deleteSstLevels {
          NonEmptySubLevelsAscending(n.l0.subLevels);
        }
      }
      forall i | 0 <= i < |levels.levels| &&
           SortedByKeyRange(levels.levels[i].tableInfos) &&
           ValidRanges(levels.levels[i].tableInfos) && CanConcat(levels.levels[i].tableInfos)
        ensures SortedByKeyRange(n.levels[i].tableInfos) && CanConcat(n.levels[i].tableInfos)
      {
        assert SortedByKeyRange(d.levels[i].tableInfos) && CanConcat(d.levels[i].tableInfos);
      }
    }
  }

  /** After a compaction that deleted from L0, no sub-level is empty and
      L0's counters are the sums of its sub-levels' counters. */
  lemma ApplyCompactSstsPurgesL0(levels: Levels, s: GroupDeltasSummary)
    requires ApplyCompactSsts(levels, s).Success?
    requires 0 in s.deleteSstLevels
    requires DeletedSstsExist(levels, s.deleteSstLevels, s.deleteSstIds) == Success(true)
    ensures var r := ApplyCompactSsts(levels, s).value;
      && (forall i | 0 <= i < |r.l0.subLevels| :: r.l0.subLevels[i].tableInfos != [])
      && L0SizesConsistent(r.l0)
  {
    var r := ApplyCompactSsts(levels, s).value;
    forall i | 0 <= i < |r.l0.subLevels|
      ensures r.l0.subLevels[i].tableInfos != []
    {
      assert r.l0.subLevels[i] in r.l0.subLevels;
    }
  }

  /** Runs can be inserted into L0 only when a sub-level with exactly the
      target id exists. */
  lemma ApplyCompactSstsNeedsTargetSubLevel(levels: Levels, s: GroupDeltasSummary)
    requires ApplyCompactSsts(levels, s).Success?
    requires s.insertTableInfos != [] && s.insertSstLevelId == 0
    requires DeletedSstsExist(levels, s.deleteSstLevels, s.deleteSstIds) == Success(true)
    ensures exists i | 0 <= i < |levels.l0.subLevels| :: levels.l0.subLevels[i].subLevelId == s.insertSubLevelId
  {
    var d := DeleteFromLevels(levels, s.deleteSstLevels, s.deleteSstIds);
    var idx := PartitionPoint(d.l0.subLevels, s.insertSubLevelId);
    assert levels.l0.subLevels[idx].subLevelId == d.l0.subLevels[idx].subLevelId;
  }

  // ---------------------------------------------------------------------
  // build_initial_compaction_group_levels

  /** The empty non-overlapping level with index `idx`. */
  function EmptyLevel(idx: nat): Level {
    Level(idx, Nonoverlapping, [], 0, 0, 0)
  }

  /** A fresh group: `maxLevel` empty non-overlapping levels numbered from 1,
      an empty L0, no parent and no member tables. */
  function InitialCompactionGroupLevels(groupId: nat, maxLevel: nat): (r: Levels)
    ensures |r.levels| == maxLevel
    ensures forall i | 0 <= i < maxLevel :: r.levels[i].levelIdx == i + 1 && r.levels[i].tableInfos == []
    ensures AllSizesConsistent(r.levels) && L0SizesConsistent(r.l0) && r.l0.subLevels == []
    ensures r.groupId == groupId && r.parentGroupId == NEW_COMPACTION_GROUP && r.memberTableIds == []
  {
    Levels(seq(maxLevel, i requires 0 <= i < maxLevel => EmptyLevel(i + 1)), OverlappingLevel([], 0, 0), groupId, NEW_COMPACTION_GROUP, [])
  }

  /** `build_initial_compaction_group_levels`: pushes one empty level per
      configured level. */
  method BuildInitialCompactionGroupLevels(groupId: nat, maxLevel: nat) returns (r: Levels)
    ensures r == InitialCompactionGroupLevels(groupId, maxLevel)
  {
    var levels: seq<Level> := [];
    var l := 0;
    while l < maxLevel
      invariant l <= maxLevel
      invariant levels == seq(l, i requires 0 <= i < l => EmptyLevel(i + 1))
    {
      levels := levels + [Level(l + 1, Nonoverlapping, [], 0, 0, 0)];
      l := l + 1;
    }
    r := Levels(levels, OverlappingLevel([], 0, 0), groupId, NEW_COMPACTION_GROUP, []);
  }
}
