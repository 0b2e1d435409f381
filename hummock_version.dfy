/** `apply_version_delta` and the read-only helpers of a Hummock version:
    a delta's groups are applied one after the other, then the version takes
    the delta's id and epochs. */
module HummockVersionUpdate {
  import opened Wrappers
  import opened HummockTypes
  import opened HummockLevels
  import opened HummockSplit
  import opened HummockSummary

  // The messages of the errors and panics modelled below.
  const CONSTRUCT_WITHOUT_CONFIG: string := "a group construct must carry a group config"
  const GROUP_MISSING: string := "compaction group should exist"
  const COMMIT_OUTSIDE_L0: string := "we should only add to L0 when we commit an epoch"
  const COMMIT_DELETES: string := "no sst should be deleted when committing an epoch"
  const EPOCH_REGRESSES: string := "new max commit epoch is older than the current max commit epoch"
  const SAFE_EPOCH_REGRESSES: string := "safe epoch must not decrease"

  // ---------------------------------------------------------------------
  // Member table ids

  predicate SortedIds(s: seq<nat>) {
    forall i, j | 0 <= i < j < |s| :: s[i] <= s[j]
  }

  /** Inserts `x` before the first id of `t` that is not smaller. */
  function InsertId(x: nat, t: seq<nat>): (r: seq<nat>)
    ensures multiset(r) == multiset(t) + multiset{x}
  {
    if t == [] || x <= t[0] then [x] + t
    else
      assert t == [t[0]] + t[1..];
      [t[0]] + InsertId(x, t[1..])
  }

  /** A lower bound of `x` and of every id of `t` bounds the insertion. */
  lemma {:induction false} InsertIdBounded(b: nat, x: nat, t: seq<nat>)
    requires b <= x
    requires forall j | 0 <= j < |t| :: b <= t[j]
    ensures forall j | 0 <= j < |InsertId(x, t)| :: b <= InsertId(x, t)[j]
  {
    if t != [] && x > t[0] {
      InsertIdBounded(b, x, t[1..]);
    }
  }

  lemma {:induction false} InsertIdSorted(x: nat, t: seq<nat>)
    requires SortedIds(t)
    ensures SortedIds(InsertId(x, t))
  {
    if t != [] && x > t[0] {
      var rest := InsertId(x, t[1..]);
      InsertIdSorted(x, t[1..]);
      InsertIdBounded(t[0], x, t[1..]);
      var r := [t[0]] + rest;
      assert r == InsertId(x, t);
      forall i, j | 0 <= i < j < |r|
        ensures r[i] <= r[j]
      {
        if i > 0 {
          assert r[i] == rest[i - 1] && r[j] == rest[j - 1];
        } else {
          assert r[j] == rest[j - 1];
        }
      }
    }
  }

  /** `sort()` on a list of ids. */
  function SortIds(s: seq<nat>): (r: seq<nat>)
    ensures multiset(r) == multiset(s)
  {
    if s == [] then []
    else
      assert s == [s[0]] + s[1..];
      InsertId(s[0], SortIds(s[1..]))
  }

  lemma {:induction false} SortIdsSorted(s: seq<nat>)
    ensures SortedIds(SortIds(s))
  {
    if s != [] {
      SortIdsSorted(s[1..]);
      InsertIdSorted(s[0], SortIds(s[1..]));
    }
  }

  /** The ids of `s` that `drop` does not list, in their order (`retain`). */
  function RetainNotIn(s: seq<nat>, drop: seq<nat>): (r: seq<nat>)
    ensures forall x :: x in r <==> x in s && x !in drop
  {
    if s == [] then []
    else
      assert s == [s[0]] + s[1..];
      if s[0] in drop then RetainNotIn(s[1..], drop) else [s[0]] + RetainNotIn(s[1..], drop)
  }

  /** The ids of `s` that `keep` lists, in their order (`extract_if`). */
  function ExtractIn(s: seq<nat>, keep: seq<nat>): (r: seq<nat>)
    ensures forall x :: x in r <==> x in s && x in keep
  {
    if s == [] then []
    else
      assert s == [s[0]] + s[1..];
      if s[0] in keep then [s[0]] + ExtractIn(s[1..], keep) else ExtractIn(s[1..], keep)
  }

  /** Extracting the ids `keep` lists leaves the others: together the two
      parts hold every id of `s`, as often as `s` does. */
  lemma {:induction false} ExtractSplits(s: seq<nat>, keep: seq<nat>)
    ensures multiset(ExtractIn(s, keep)) + multiset(RetainNotIn(s, keep)) == multiset(s)
  {
    if s != [] {
      ExtractSplits(s[1..], keep);
      assert s == [s[0]] + s[1..];
    }
  }

  /** One group meta change: the added ids are appended, the removed ones
      dropped, and the list sorted. */
  function ApplyMetaChange(ids: seq<nat>, c: GroupMetaChange): seq<nat> {
    SortIds(RetainNotIn(ids + c.tableIdsAdd, c.tableIdsRemove))
  }

  function ApplyMetaChanges(ids: seq<nat>, cs: seq<GroupMetaChange>): seq<nat>
    decreases |cs|
  {
    if cs == [] then ids else ApplyMetaChange(ApplyMetaChanges(ids, cs[..|cs| - 1]), cs[|cs| - 1])
  }

  /** After a meta change the member ids are sorted and hold exactly the ids
      that were members or added and are not removed. */
  lemma MetaChangeSpec(ids: seq<nat>, c: GroupMetaChange)
    ensures SortedIds(ApplyMetaChange(ids, c))
    ensures forall x :: x in ApplyMetaChange(ids, c) <==> (x in ids || x in c.tableIdsAdd) && x !in c.tableIdsRemove
  {
    var kept := RetainNotIn(ids + c.tableIdsAdd, c.tableIdsRemove);
    SortIdsSorted(kept);
    forall x
      ensures x in ApplyMetaChange(ids, c) <==> x in kept
    {
      assert x in ApplyMetaChange(ids, c) <==> x in multiset(SortIds(kept));
    }
  }

  /** At least one meta change leaves the member ids sorted. */
  lemma MetaChangesSorted(ids: seq<nat>, cs: seq<GroupMetaChange>)
    requires cs != []
    ensures SortedIds(ApplyMetaChanges(ids, cs))
  {
    MetaChangeSpec(ApplyMetaChanges(ids, cs[..|cs| - 1]), cs[|cs| - 1]);
  }

  // ---------------------------------------------------------------------
  // One group of a delta

  /** A group construct: a fresh group with the configured number of levels,
      the given parent and members, split off its parent. */
  function ConstructGroup(m: map<nat, Levels>, gid: nat, c: GroupConstruct): Result<SplitOutcome, string> {
    if c.groupConfig.None? then Failure(CONSTRUCT_WITHOUT_CONFIG)
    else
      var initial := InitialCompactionGroupLevels(gid, c.groupConfig.value);
      var nl := initial.(parentGroupId := c.parentGroupId, memberTableIds := c.tableIds);
      InitWithParentGroupSpec(m[gid := nl], c.parentGroupId, gid, IdSet(c.tableIds), c.newSstStartId,
                              c.version == VERSION_UNSPECIFIED)
  }

  /** A group table change: the tables' runs are split from the origin group
      into the target group; the tables leave the origin's member list and
      are appended to the member list of the group the delta belongs to. */
  function ChangeGroupTables(m: map<nat, Levels>, gid: nat, ch: GroupTableChange): Result<SplitOutcome, string> {
    var sp := InitWithParentGroupSpec(m, ch.originGroupId, ch.targetGroupId, IdSet(ch.tableIds), ch.newSstStartId,
                                      ch.version == VERSION_UNSPECIFIED);
    if sp.Failure? then sp
    else
      var m1 := sp.value.0;
      if ch.originGroupId !in m1 then Failure(GROUP_MISSING)
      else
        var origin := m1[ch.originGroupId];
        var moving := ExtractIn(origin.memberTableIds, ch.tableIds);
        var m2 := m1[ch.originGroupId := origin.(memberTableIds := RetainNotIn(origin.memberTableIds, ch.tableIds))];
        if gid !in m2 then Failure(GROUP_MISSING)
        else
          var m3: map<nat, Levels> := m2[gid := m2[gid].(memberTableIds := m2[gid].memberTableIds + moving)];
          Success((m3, sp.value.1))
  }

  /** The commit of an epoch: runs may only go into L0, as one new
      overlapping sub-level after all others, and nothing may be deleted
      unless the group is destroyed. */
  function CommitEpoch(levels: Levels, s: GroupDeltasSummary): Result<Levels, string> {
    if !(s.insertSstLevelId == 0 || s.insertTableInfos == []) then
      Failure(COMMIT_OUTSIDE_L0)
    else if !((s.deleteSstLevels == {} && s.deleteSstIds == {}) || s.groupDestroy) then
      Failure(COMMIT_DELETES)
    else if s.insertTableInfos == [] then Success(levels)
    else
      var l0 := InsertNewSubLevel(levels.l0, s.insertSubLevelId, Overlapping, s.insertTableInfos, None);
      if l0.Failure? then Failure(l0.error) else Success(levels.(l0 := l0.value))
  }

  /** The deltas of group `gid`, against a version whose committed epoch is
      `curEpoch`, in a delta whose committed epoch is `newEpoch`. */
  function ApplyGroup(m: map<nat, Levels>, curEpoch: nat, newEpoch: nat, gid: nat, ds: seq<GroupDelta>): Result<SplitOutcome, string> {
    var sum := SummaryOf(ds);
    if sum.Failure? then Failure(sum.error)
    else
      var s := sum.value;
      var split := if s.groupConstruct.Some? then ConstructGroup(m, gid, s.groupConstruct.value)
                   else if s.groupTableChange.Some? then ChangeGroupTables(m, gid, s.groupTableChange.value)
                   else Success((m, []));
      if split.Failure? then split
      else ApplyGroupLevels(split.value.0, curEpoch, newEpoch, gid, s, split.value.1)
  }

  /** The part of a group's deltas after construction and table moves: meta
      changes, the epoch check, then a commit or a compaction, and finally
      the destroy. */
  function ApplyGroupLevels(m: map<nat, Levels>, curEpoch: nat, newEpoch: nat, gid: nat, s: GroupDeltasSummary,
                            splits: seq<SstSplitInfo>): Result<SplitOutcome, string> {
    if gid !in m then Failure(GROUP_MISSING)
    else
      var levels := m[gid].(memberTableIds := ApplyMetaChanges(m[gid].memberTableIds, s.groupMetaChanges));
      if curEpoch > newEpoch then Failure(EPOCH_REGRESSES)
      else
        var updated := if curEpoch < newEpoch then CommitEpoch(levels, s) else ApplyCompactSsts(levels, s);
        if updated.Failure? then Failure(updated.error)
        else
          var m': map<nat, Levels> := m[gid := updated.value];
          var m'': map<nat, Levels> := if s.groupDestroy then m' - {gid} else m';
          Success((m'', splits))
  }

  /** The groups of a delta from the `i`-th on, after `splits` were
      recorded. */
  function ApplyGroupsFrom(m: map<nat, Levels>, splits: seq<SstSplitInfo>, curEpoch: nat, d: HummockVersionDelta, i: nat)
    : Result<SplitOutcome, string>
    requires i <= |d.groupDeltas|
    decreases |d.groupDeltas| - i
  {
    if i == |d.groupDeltas| then Success((m, splits))
    else
      var r := ApplyGroup(m, curEpoch, d.maxCommittedEpoch, d.groupDeltas[i].0, d.groupDeltas[i].1);
      if r.Failure? then r
      else ApplyGroupsFrom(r.value.0, splits + r.value.1, curEpoch, d, i + 1)
  }

  /** `apply_version_delta` as a function of the version before: the new
      version and the split records. A safe epoch that changes must grow. */
  function ApplyVersionDeltaSpec(v: HummockVersion, d: HummockVersionDelta): Result<(HummockVersion, seq<SstSplitInfo>), string> {
    var g := ApplyGroupsFrom(v.levels, [], v.maxCommittedEpoch, d, 0);
    if g.Failure? then Failure(g.error)
    else if d.safeEpoch != v.safeEpoch && d.safeEpoch <= v.safeEpoch then Failure(SAFE_EPOCH_REGRESSES)
    else Success((HummockVersion(d.id, g.value.0, d.maxCommittedEpoch, d.safeEpoch), g.value.1))
  }

  /** `build_version_delta_after_version`: the empty delta that follows a
      version. */
  function BuildVersionDeltaAfterVersion(v: HummockVersion): (d: HummockVersionDelta) {
    HummockVersionDelta(v.id + 1, v.id, [], v.maxCommittedEpoch, v.safeEpoch, false, [])
  }

  // ---------------------------------------------------------------------
  // What applying a delta promises

  /** A commit only adds: every level below L0 and every existing sub-level
      is kept, and a non-empty insert appends one overlapping sub-level,
      which must be newer than all the others. */
  lemma CommitEpochSpec(levels: Levels, s: GroupDeltasSummary)
    ensures var r := CommitEpoch(levels, s);
      && (r.Success? <==>
            && (s.insertSstLevelId == 0 || s.insertTableInfos == [])
            && ((s.deleteSstLevels == {} && s.deleteSstIds == {}) || s.groupDestroy)
            && (s.insertTableInfos == [] || s.insertSubLevelId == U64_MAX || |levels.l0.subLevels| == 0
                || levels.l0.subLevels[|levels.l0.subLevels| - 1].subLevelId < s.insertSubLevelId))
      && (r.Success? ==>
            && r.value.(l0 := levels.l0) == levels
            && r.value.l0.subLevels == levels.l0.subLevels +
                 (if s.insertTableInfos == [] || s.insertSubLevelId == U64_MAX then []
                  else [NewSubLevel(s.insertSubLevelId, Overlapping, s.insertTableInfos)])
            && (L0SizesConsistent(levels.l0) ==> L0SizesConsistent(r.value.l0))
            && (SubLevelIdsAscending(levels.l0.subLevels) ==> SubLevelIdsAscending(r.value.l0.subLevels)))
  {
    if s.insertTableInfos != [] && s.insertSubLevelId != U64_MAX {
      InsertNewSubLevelAppendSpec(levels.l0, s.insertSubLevelId, Overlapping, s.insertTableInfos);
    }
  }

  /** A group's deltas apply only when the version's committed epoch is not
      newer than the delta's. */
  lemma ApplyGroupNeedsEpoch(m: map<nat, Levels>, curEpoch: nat, newEpoch: nat, gid: nat, ds: seq<GroupDelta>)
    requires ApplyGroup(m, curEpoch, newEpoch, gid, ds).Success?
    ensures curEpoch <= newEpoch
  {
  }

  /** A delta that applies gives the version its own id, committed epoch and
      safe epoch; the safe epoch never goes down, and when the delta has any
      group deltas its committed epoch is not older than the version's. */
  lemma ApplyVersionDeltaEpochs(v: HummockVersion, d: HummockVersionDelta)
    requires ApplyVersionDeltaSpec(v, d).Success?
    ensures var w := ApplyVersionDeltaSpec(v, d).value.0;
      && w.id == d.id && w.maxCommittedEpoch == d.maxCommittedEpoch && w.safeEpoch == d.safeEpoch
      && v.safeEpoch <= w.safeEpoch
      && (d.groupDeltas != [] ==> v.maxCommittedEpoch <= d.maxCommittedEpoch)
  {
    if d.groupDeltas != [] {
      ApplyGroupNeedsEpoch(v.levels, v.maxCommittedEpoch, d.maxCommittedEpoch, d.groupDeltas[0].0, d.groupDeltas[0].1);
    }
  }

  /** The committed-epoch check sits inside the loop over groups: a delta
      without group deltas applies whatever its committed epoch, and changes
      nothing but the id and the epochs. */
  lemma ApplyDeltaWithoutGroups(v: HummockVersion, d: HummockVersionDelta)
    requires d.groupDeltas == []
    ensures ApplyVersionDeltaSpec(v, d).Success? <==> v.safeEpoch <= d.safeEpoch
    ensures ApplyVersionDeltaSpec(v, d).Success? ==>
      ApplyVersionDeltaSpec(v, d).value == (HummockVersion(d.id, v.levels, d.maxCommittedEpoch, d.safeEpoch), [])
  {
  }

  /** The empty delta built after a version applies to it and only moves the
      id on by one. */
  lemma DeltaAfterVersionApplies(v: HummockVersion)
    ensures var d := BuildVersionDeltaAfterVersion(v);
      && d.prevId == v.id
      && ApplyVersionDeltaSpec(v, d) == Success((v.(id := v.id + 1), []))
  {
  }

  /** Without a construct or a table change nothing is split off: the
      group's deltas are its level changes alone. */
  lemma ApplyGroupWithoutSplit(m: map<nat, Levels>, curEpoch: nat, newEpoch: nat, gid: nat, ds: seq<GroupDelta>)
    requires SummaryOf(ds).Success?
    requires !HasConstruct(ds) && LastTableChange(ds).None?
    ensures ApplyGroup(m, curEpoch, newEpoch, gid, ds) == ApplyGroupLevels(m, curEpoch, newEpoch, gid, SummaryOf(ds).value, [])
  {
    SummaryOfContents(ds);
  }

  /** The level changes of a group touch that group only: it must exist,
      the split records pass through, the other groups are unchanged, the
      group is gone exactly when it is destroyed, and otherwise its member
      ids are those the meta changes leave. */
  lemma ApplyGroupLevelsTouchesOnlyItsGroup(m: map<nat, Levels>, curEpoch: nat, newEpoch: nat, gid: nat,
                                            s: GroupDeltasSummary, splits: seq<SstSplitInfo>)
    requires ApplyGroupLevels(m, curEpoch, newEpoch, gid, s, splits).Success?
    ensures var r := ApplyGroupLevels(m, curEpoch, newEpoch, gid, s, splits).value;
      && gid in m && r.1 == splits
      && r.0.Keys == (if s.groupDestroy then m.Keys - {gid} else m.Keys)
      && (forall k | k in m && k != gid :: r.0[k] == m[k])
      && (gid in r.0 ==> r.0[gid].memberTableIds == ApplyMetaChanges(m[gid].memberTableIds, s.groupMetaChanges))
  {
    var levels := m[gid].(memberTableIds := ApplyMetaChanges(m[gid].memberTableIds, s.groupMetaChanges));
    if curEpoch < newEpoch {
      CommitEpochSpec(levels, s);
    } else {
      ApplyCompactSstsKeepsLevels(levels, s);
    }
  }

  /** Deltas that neither construct the group nor move tables touch that
      group only: it must exist, no split is recorded, the other groups are
      unchanged, the group is gone exactly when a delta destroys it, and
      otherwise its member ids are those the meta changes leave, sorted
      after any meta change. */
  lemma ApplyGroupTouchesOnlyItsGroup(m: map<nat, Levels>, curEpoch: nat, newEpoch: nat, gid: nat, ds: seq<GroupDelta>)
    requires ApplyGroup(m, curEpoch, newEpoch, gid, ds).Success?
    requires !HasConstruct(ds) && LastTableChange(ds).None?
    ensures var r := ApplyGroup(m, curEpoch, newEpoch, gid, ds).value;
      && gid in m && r.1 == []
      && r.0.Keys == (if HasDestroy(ds) then m.Keys - {gid} else m.Keys)
      && (forall k | k in m && k != gid :: r.0[k] == m[k])
      && (gid in r.0 ==>
            && r.0[gid].memberTableIds == ApplyMetaChanges(m[gid].memberTableIds, MetaChanges(ds))
            && (MetaChanges(ds) != [] ==> SortedIds(r.0[gid].memberTableIds)))
  {
    SummaryOfContents(ds);
    ApplyGroupWithoutSplit(m, curEpoch, newEpoch, gid, ds);
    ApplyGroupLevelsTouchesOnlyItsGroup(m, curEpoch, newEpoch, gid, SummaryOf(ds).value, []);
    if MetaChanges(ds) != [] {
      MetaChangesSorted(m[gid].memberTableIds, MetaChanges(ds));
    }
  }

  /** A group whose deltas destroy it is gone afterwards. */
  lemma ApplyGroupDestroys(m: map<nat, Levels>, curEpoch: nat, newEpoch: nat, gid: nat, ds: seq<GroupDelta>)
    requires ApplyGroup(m, curEpoch, newEpoch, gid, ds).Success?
    requires HasDestroy(ds)
    ensures gid !in ApplyGroup(m, curEpoch, newEpoch, gid, ds).value.0
  {
    SummaryOfContents(ds);
  }

  /** A committed epoch with runs to insert adds them to L0 of the group as
      one new overlapping sub-level after every other one. */
  lemma ApplyGroupCommitAppendsSubLevel(m: map<nat, Levels>, curEpoch: nat, newEpoch: nat, gid: nat, ds: seq<GroupDelta>)
    requires ApplyGroup(m, curEpoch, newEpoch, gid, ds).Success?
    requires !HasConstruct(ds) && LastTableChange(ds).None? && !HasDestroy(ds)
    requires curEpoch < newEpoch
    requires InsertTarget(ds).Some? && InsertTarget(ds).value.1 != U64_MAX
    ensures var r := ApplyGroup(m, curEpoch, newEpoch, gid, ds).value.0;
      && gid in m && gid in r
      && r[gid].levels == m[gid].levels
      && InsertTarget(ds).value.0 == 0
      && r[gid].l0.subLevels == m[gid].l0.subLevels + [NewSubLevel(InsertTarget(ds).value.1, Overlapping, InsertedRuns(ds))]
  {
    SummaryOfContents(ds);
    SummaryOfInsertTarget(ds);
    var s := SummaryOf(ds).value;
    var levels := m[gid].(memberTableIds := ApplyMetaChanges(m[gid].memberTableIds, s.groupMetaChanges));
    CommitEpochSpec(levels, s);
  }

  /** Every group delta of `d` only changes levels: no group is constructed,
      destroyed or handed tables. */
  predicate OnlyLevelChanges(d: HummockVersionDelta) {
    forall i | 0 <= i < |d.groupDeltas| ::
      !HasConstruct(d.groupDeltas[i].1) && LastTableChange(d.groupDeltas[i].1).None? && !HasDestroy(d.groupDeltas[i].1)
  }

  /** One group of a delta that only changes levels: the group's deltas keep
      the set of groups and record no split, so the rest of the delta runs
      on a map with the same groups and the same split records. */
  lemma ApplyGroupsFromStep(m: map<nat, Levels>, splits: seq<SstSplitInfo>, curEpoch: nat,
                            d: HummockVersionDelta, i: nat) returns (next: map<nat, Levels>)
    requires i < |d.groupDeltas|
    requires !HasConstruct(d.groupDeltas[i].1) && LastTableChange(d.groupDeltas[i].1).None?
    requires !HasDestroy(d.groupDeltas[i].1)
    requires ApplyGroupsFrom(m, splits, curEpoch, d, i).Success?
    ensures next.Keys == m.Keys
    ensures ApplyGroupsFrom(m, splits, curEpoch, d, i) == ApplyGroupsFrom(next, splits, curEpoch, d, i + 1)
  {
    var gid, ds := d.groupDeltas[i].0, d.groupDeltas[i].1;
    var r := ApplyGroup(m, curEpoch, d.maxCommittedEpoch, gid, ds);
    ApplyGroupTouchesOnlyItsGroup(m, curEpoch, d.maxCommittedEpoch, gid, ds);
    next := r.value.0;
    assert splits + r.value.1 == splits;
  }

  lemma {:induction false} ApplyGroupsFromKeepsGroups(m: map<nat, Levels>, splits: seq<SstSplitInfo>, curEpoch: nat,
                                                      d: HummockVersionDelta, i: nat)
    requires i <= |d.groupDeltas|
    requires OnlyLevelChanges(d)
    requires ApplyGroupsFrom(m, splits, curEpoch, d, i).Success?
    ensures ApplyGroupsFrom(m, splits, curEpoch, d, i).value.0.Keys == m.Keys
    ensures ApplyGroupsFrom(m, splits, curEpoch, d, i).value.1 == splits
    decreases |d.groupDeltas| - i
  {
    if i == |d.groupDeltas| {
      assert ApplyGroupsFrom(m, splits, curEpoch, d, i) == Success((m, splits));
    } else {
      var ds := d.groupDeltas[i].1;
      assert !HasConstruct(ds) && LastTableChange(ds).None? && !HasDestroy(ds);
      var next := ApplyGroupsFromStep(m, splits, curEpoch, d, i);
      ApplyGroupsFromKeepsGroups(next, splits, curEpoch, d, i + 1);
    }
  }

  /** A delta that only changes levels keeps the set of compaction groups
      and records no split. */
  lemma ApplyVersionDeltaKeepsGroups(v: HummockVersion, d: HummockVersionDelta)
    requires OnlyLevelChanges(d)
    requires ApplyVersionDeltaSpec(v, d).Success?
    ensures ApplyVersionDeltaSpec(v, d).value.0.levels.Keys == v.levels.Keys
    ensures ApplyVersionDeltaSpec(v, d).value.1 == []
  {
    ApplyGroupsFromKeepsGroups(v.levels, [], v.maxCommittedEpoch, d, 0);
  }

  // ---------------------------------------------------------------------
  // The methods

  /** A group construct, with the fresh group built by its loop and the split
      run by its loops. */
  method ConstructGroupM(m: map<nat, Levels>, gid: nat, c: GroupConstruct) returns (r: Result<SplitOutcome, string>)
    ensures r == ConstructGroup(m, gid, c)
  {
    if c.groupConfig.None? {
      return Failure(CONSTRUCT_WITHOUT_CONFIG);
    }
    var initial := BuildInitialCompactionGroupLevels(gid, c.groupConfig.value);
    var nl := initial.(parentGroupId := c.parentGroupId, memberTableIds := c.tableIds);
    r := InitWithParentGroup(m[gid := nl], c.parentGroupId, gid, IdSet(c.tableIds), c.newSstStartId,
                             c.version == VERSION_UNSPECIFIED);
  }

  method ChangeGroupTablesM(m: map<nat, Levels>, gid: nat, ch: GroupTableChange) returns (r: Result<SplitOutcome, string>)
    ensures r == ChangeGroupTables(m, gid, ch)
  {
    var sp := InitWithParentGroup(m, ch.originGroupId, ch.targetGroupId, IdSet(ch.tableIds), ch.newSstStartId,
                                  ch.version == VERSION_UNSPECIFIED);
    if sp.Failure? {
      return sp;
    }
    var m1 := sp.value.0;
    if ch.originGroupId !in m1 {
      return Failure(GROUP_MISSING);
    }
    var origin := m1[ch.originGroupId];
    var moving := ExtractIn(origin.memberTableIds, ch.tableIds);
    var m2 := m1[ch.originGroupId := origin.(memberTableIds := RetainNotIn(origin.memberTableIds, ch.tableIds))];
    if gid !in m2 {
      return Failure(GROUP_MISSING);
    }
    var m3: map<nat, Levels> := m2[gid := m2[gid].(memberTableIds := m2[gid].memberTableIds + moving)];
    r := Success((m3, sp.value.1));
  }

  /** The body of the loop over a delta's groups. */
  method ApplyGroupM(m: map<nat, Levels>, curEpoch: nat, newEpoch: nat, gid: nat, ds: seq<GroupDelta>)
    returns (r: Result<SplitOutcome, string>)
    ensures r == ApplyGroup(m, curEpoch, newEpoch, gid, ds)
  {
    var sum := SummarizeGroupDeltas(ds);
    if sum.Failure? {
      return Failure(sum.error);
    }
    var s := sum.value;
    var split: Result<SplitOutcome, string>;
    if s.groupConstruct.Some? {
      split := ConstructGroupM(m, gid, s.groupConstruct.value);
    } else if s.groupTableChange.Some? {
      split := ChangeGroupTablesM(m, gid, s.groupTableChange.value);
    } else {
      split := Success((m, []));
    }
    if split.Failure? {
      return split;
    }
    r := ApplyGroupLevels(split.value.0, curEpoch, newEpoch, gid, s, split.value.1);
  }

  /** A Hummock version whose fields `apply_version_delta` updates in place. */
  class Version {
    var id: nat
    var levels: map<nat, Levels>
    var maxCommittedEpoch: nat
    var safeEpoch: nat

    function Value(): HummockVersion
      reads this
    {
      HummockVersion(id, levels, maxCommittedEpoch, safeEpoch)
    }

    constructor (v: HummockVersion)
      ensures Value() == v
    {
      id, levels, maxCommittedEpoch, safeEpoch := v.id, v.levels, v.maxCommittedEpoch, v.safeEpoch;
    }

    /** `apply_version_delta`: on success the version is the one
        `ApplyVersionDeltaSpec` gives and the split records are returned; a
        failure is a panic of the source, after which nothing is promised
        about the version. */
    method ApplyVersionDelta(d: HummockVersionDelta) returns (r: Result<seq<SstSplitInfo>, string>)
      modifies this
      ensures var spec := ApplyVersionDeltaSpec(old(Value()), d);
        && (r.Success? <==> spec.Success?)
        && (r.Success? ==> Value() == spec.value.0 && r.value == spec.value.1)
    {
      ghost var v0 := Value();
      var splits: seq<SstSplitInfo> := [];
      var i := 0;
      while i < |d.groupDeltas|
        invariant 0 <= i <= |d.groupDeltas|
        invariant id == v0.id && maxCommittedEpoch == v0.maxCommittedEpoch && safeEpoch == v0.safeEpoch
        invariant ApplyGroupsFrom(levels, splits, maxCommittedEpoch, d, i) == ApplyGroupsFrom(v0.levels, [], v0.maxCommittedEpoch, d, 0)
      {
        var g := ApplyGroupM(levels, maxCommittedEpoch, d.maxCommittedEpoch, d.groupDeltas[i].0, d.groupDeltas[i].1);
        if g.Failure? {
          return Failure(g.error);
        }
        levels, splits, i := g.value.0, splits + g.value.1, i + 1;
      }
      id := d.id;
      maxCommittedEpoch := d.maxCommittedEpoch;
      if d.safeEpoch != safeEpoch {
        if d.safeEpoch <= safeEpoch {
          return Failure(SAFE_EPOCH_REGRESSES);
        }
        safeEpoch := d.safeEpoch;
      }
      r := Success(splits);
    }
  }
}
