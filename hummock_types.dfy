/** The data model of a Hummock version: runs (`SstableInfo`), levels, the
    overlapping L0 with its sub-levels, the per-compaction-group `Levels`, the
    version itself and the deltas that advance it. */
module HummockTypes {
  import opened Wrappers

  const U64_MAX: nat := 0xFFFF_FFFF_FFFF_FFFF
  const U32_MAX: nat := 0xFFFF_FFFF

  /** `StaticCompactionGroupId::NewCompactionGroup`: the parent id of a group
      that was not split off another group. */
  const NEW_COMPACTION_GROUP: nat := 0

  /** `CompatibilityVersion::VersionUnspecified`: the only compatibility
      version under which a split may be trivial. */
  const VERSION_UNSPECIFIED: nat := 0

  /** A run's key range. Keys are an abstract total order, written as
      integers here. */
  datatype KeyRange = KeyRange(left: int, right: int)

  /** The order `KeyRange::compare` sorts runs by: left bound first, then
      right bound. */
  predicate KeyRangeLe(a: KeyRange, b: KeyRange) {
    a.left < b.left || (a.left == b.left && a.right <= b.right)
  }

  datatype SstableInfo = SstableInfo(
    objectId: nat,
    sstId: nat,
    keyRange: KeyRange,
    tableIds: seq<nat>,
    fileSize: nat,
    uncompressedFileSize: nat)

  datatype LevelType = LevelTypeUnspecified | Nonoverlapping | Overlapping

  datatype Level = Level(
    levelIdx: nat,
    levelType: LevelType,
    tableInfos: seq<SstableInfo>,
    totalFileSize: int,
    subLevelId: nat,
    uncompressedFileSize: int)

  datatype OverlappingLevel = OverlappingLevel(
    subLevels: seq<Level>,
    totalFileSize: int,
    uncompressedFileSize: int)

  /** One compaction group: L0 plus the levels L1..Ln (`levels[i]` is
      level `i + 1`). */
  datatype Levels = Levels(
    levels: seq<Level>,
    l0: OverlappingLevel,
    groupId: nat,
    parentGroupId: nat,
    memberTableIds: seq<nat>)

  datatype HummockVersion = HummockVersion(
    id: nat,
    levels: map<nat, Levels>,
    maxCommittedEpoch: nat,
    safeEpoch: nat)

  /** `order` visits every group of `v` exactly once, as iterating the
      version's hash map of groups does. */
  predicate Enumerates(v: HummockVersion, order: seq<nat>) {
    && (forall g | g in order :: g in v.levels)
    && (forall g | g in v.levels :: g in order)
    && (forall i, j | 0 <= i < j < |order| :: order[i] != order[j])
  }

  datatype IntraLevelDelta = IntraLevelDelta(
    levelIdx: nat,
    l0SubLevelId: nat,
    removedTableIds: seq<nat>,
    insertedTableInfos: seq<SstableInfo>)

  /** `groupConfig` is the configured `max_level` of the new group, `None`
      when the delta carries no configuration. */
  datatype GroupConstruct = GroupConstruct(
    groupConfig: Option<nat>,
    parentGroupId: nat,
    tableIds: seq<nat>,
    newSstStartId: nat,
    version: nat)

  datatype GroupMetaChange = GroupMetaChange(tableIdsAdd: seq<nat>, tableIdsRemove: seq<nat>)

  datatype GroupTableChange = GroupTableChange(
    tableIds: seq<nat>,
    targetGroupId: nat,
    originGroupId: nat,
    newSstStartId: nat,
    version: nat)

  datatype GroupDelta =
    | IntraLevel(intra: IntraLevelDelta)
    | Construct(construct: GroupConstruct)
    | Destroy
    | MetaChange(meta: GroupMetaChange)
    | TableChange(change: GroupTableChange)

  /** `groupDeltas` lists the entries of the delta's hash map in the order
      the map is iterated. */
  datatype HummockVersionDelta = HummockVersionDelta(
    id: nat,
    prevId: nat,
    groupDeltas: seq<(nat, seq<GroupDelta>)>,
    maxCommittedEpoch: nat,
    safeEpoch: nat,
    trivialMove: bool,
    gcObjectIds: seq<nat>)

  /** What a split records for one branched run. */
  datatype SstSplitInfo = SstSplitInfo(
    objectId: nat,
    sstId: nat,
    oldParentSstId: nat,
    newParentSstId: nat)

  /** `GroupDeltasSummary`: what the deltas of one group amount to.
      `deleteSstLevels` is sorted and free of duplicates in the source, a set
      here; `insertSstLevelId` is `U32_MAX` and `insertSubLevelId` is
      `U64_MAX` when nothing is inserted. */
  datatype GroupDeltasSummary = GroupDeltasSummary(
    deleteSstLevels: set<nat>,
    deleteSstIds: set<nat>,
    insertSstLevelId: nat,
    insertSubLevelId: nat,
    insertTableInfos: seq<SstableInfo>,
    groupConstruct: Option<GroupConstruct>,
    groupDestroy: bool,
    groupMetaChanges: seq<GroupMetaChange>,
    groupTableChange: Option<GroupTableChange>)

  // ---------------------------------------------------------------------
  // Size counters

  datatype SizeKind = FileSize | UncompressedSize

  function SizeOf(t: SstableInfo, k: SizeKind): nat {
    if k == FileSize then t.fileSize else t.uncompressedFileSize
  }

  /** The sum of one size of the runs in `s`. */
  function SumSizes(s: seq<SstableInfo>, k: SizeKind): nat {
    if s == [] then 0 else SizeOf(s[0], k) + SumSizes(s[1..], k)
  }

  function LevelSize(l: Level, k: SizeKind): int {
    if k == FileSize then l.totalFileSize else l.uncompressedFileSize
  }

  function L0Size(l0: OverlappingLevel, k: SizeKind): int {
    if k == FileSize then l0.totalFileSize else l0.uncompressedFileSize
  }

  /** The sum of one size counter over a list of levels. */
  function SumLevelSizes(ls: seq<Level>, k: SizeKind): int {
    if ls == [] then 0 else LevelSize(ls[0], k) + SumLevelSizes(ls[1..], k)
  }

  /** A level's counters equal the sums over its runs. */
  predicate SizesConsistent(l: Level) {
    l.totalFileSize == SumSizes(l.tableInfos, FileSize) &&
    l.uncompressedFileSize == SumSizes(l.tableInfos, UncompressedSize)
  }

  /** L0's counters equal the sums of its sub-levels' counters. */
  predicate L0SizesConsistent(l0: OverlappingLevel) {
    l0.totalFileSize == SumLevelSizes(l0.subLevels, FileSize) &&
    l0.uncompressedFileSize == SumLevelSizes(l0.subLevels, UncompressedSize)
  }

  lemma {:induction false} SumSizesAppend(a: seq<SstableInfo>, b: seq<SstableInfo>, k: SizeKind)
    ensures SumSizes(a + b, k) == SumSizes(a, k) + SumSizes(b, k)
  {
    if a == [] {
      assert a + b == b;
    } else {
      assert (a + b)[1..] == a[1..] + b;
      SumSizesAppend(a[1..], b, k);
    }
  }

  lemma {:induction false} SumLevelSizesAppend(a: seq<Level>, b: seq<Level>, k: SizeKind)
    ensures SumLevelSizes(a + b, k) == SumLevelSizes(a, k) + SumLevelSizes(b, k)
  {
    if a == [] {
      assert a + b == b;
    } else {
      assert (a + b)[1..] == a[1..] + b;
      SumLevelSizesAppend(a[1..], b, k);
    }
  }

  // ---------------------------------------------------------------------
  // Key-range order of runs

  /** `can_concat`: each run's key range ends before the next one's begins. */
  predicate CanConcat(s: seq<SstableInfo>) {
    forall i, j | 0 <= i < |s| && 0 <= j < |s| && j == i + 1 :: s[i].keyRange.right < s[j].keyRange.left
  }

  predicate SortedByKeyRange(s: seq<SstableInfo>) {
    forall i, j | 0 <= i < j < |s| :: KeyRangeLe(s[i].keyRange, s[j].keyRange)
  }

  /** No run's key range ends before it begins. */
  predicate ValidRanges(s: seq<SstableInfo>) {
    forall t | t in s :: t.keyRange.left <= t.keyRange.right
  }

  /** Run `a`'s key range ends before run `b`'s begins. */
  predicate EndsBefore(a: SstableInfo, b: SstableInfo) {
    a.keyRange.right < b.keyRange.left
  }

  /** Every run's key range ends before any later run's begins. */
  predicate PairwiseDisjoint(s: seq<SstableInfo>) {
    forall i, j | 0 <= i < j < |s| :: EndsBefore(s[i], s[j])
  }

  lemma {:induction false} CanConcatChain(s: seq<SstableInfo>, i: nat, j: nat)
    requires ValidRanges(s) && CanConcat(s)
    requires i < j < |s|
    ensures s[i].keyRange.right < s[j].keyRange.left
    decreases j - i
  {
    if j > i + 1 {
      CanConcatChain(s, i, j - 1);
      assert s[j - 1] in s;
    }
  }

  /** With well-formed key ranges, adjacent runs not overlapping is the same
      as no two runs overlapping. */
  lemma CanConcatPairwise(s: seq<SstableInfo>)
    requires ValidRanges(s)
    ensures CanConcat(s) <==> PairwiseDisjoint(s)
  {
    if CanConcat(s) {
      forall i, j | 0 <= i < j < |s|
        ensures EndsBefore(s[i], s[j])
      {
        CanConcatChain(s, i, j);
      }
    }
  }

  /** Inserts `x` before the first run of `t` that does not sort before it. */
  function InsertByKeyRange(x: SstableInfo, t: seq<SstableInfo>): (r: seq<SstableInfo>)
    ensures multiset(r) == multiset(t) + multiset{x}
  {
    if t == [] || KeyRangeLe(x.keyRange, t[0].keyRange) then
      [x] + t
    else
      assert t == [t[0]] + t[1..];
      [t[0]] + InsertByKeyRange(x, t[1..])
  }

  /** Inserting into a sorted list keeps it sorted. */
  lemma {:induction false} InsertKeepsSorted(x: SstableInfo, t: seq<SstableInfo>)
    requires SortedByKeyRange(t)
    ensures SortedByKeyRange(InsertByKeyRange(x, t))
  {
    if t != [] && !KeyRangeLe(x.keyRange, t[0].keyRange) {
      var rest := InsertByKeyRange(x, t[1..]);
      InsertKeepsSorted(x, t[1..]);
      forall j | 0 <= j < |rest|
        ensures KeyRangeLe(t[0].keyRange, rest[j].keyRange)
      {
        assert rest[j] in multiset(rest);
        if rest[j] != x {
          assert rest[j] in multiset(t[1..]);
          var m :| 0 <= m < |t[1..]| && t[1..][m] == rest[j];
          assert t[m + 1] == rest[j];
        }
      }
      var r := [t[0]] + rest;
      assert r == InsertByKeyRange(x, t);
      forall i, j | 0 <= i < j < |r|
        ensures KeyRangeLe(r[i].keyRange, r[j].keyRange)
      {
        if i > 0 {
          assert r[i] == rest[i - 1] && r[j] == rest[j - 1];
        } else {
          assert r[j] == rest[j - 1];
        }
      }
    }
  }

  lemma {:induction false} SumSizesInsert(x: SstableInfo, t: seq<SstableInfo>, k: SizeKind)
    ensures SumSizes(InsertByKeyRange(x, t), k) == SizeOf(x, k) + SumSizes(t, k)
  {
    if t != [] && !KeyRangeLe(x.keyRange, t[0].keyRange) {
      SumSizesInsert(x, t[1..], k);
    }
  }

  /** The stable sort by key range that `sort_by(KeyRange::compare)` performs. */
  function SortByKeyRange(s: seq<SstableInfo>): (r: seq<SstableInfo>)
    ensures multiset(r) == multiset(s)
  {
    if s == [] then []
    else
      assert s == [s[0]] + s[1..];
      InsertByKeyRange(s[0], SortByKeyRange(s[1..]))
  }

  /** The sort's result is ordered by key range. */
  lemma {:induction false} SortByKeyRangeSorted(s: seq<SstableInfo>)
    ensures SortedByKeyRange(SortByKeyRange(s))
  {
    if s != [] {
      SortByKeyRangeSorted(s[1..]);
      InsertKeepsSorted(s[0], SortByKeyRange(s[1..]));
    }
  }

  /** Sorting keeps the sums of sizes. */
  lemma {:induction false} SumSizesSort(s: seq<SstableInfo>, k: SizeKind)
    ensures SumSizes(SortByKeyRange(s), k) == SumSizes(s, k)
  {
    if s != [] {
      SumSizesSort(s[1..], k);
      SumSizesInsert(s[0], SortByKeyRange(s[1..]), k);
    }
  }

  /** The ids of the runs in `s`. */
  function SstIds(s: seq<SstableInfo>): set<nat> {
    set t | t in s :: t.sstId
  }
}
