/** Read-only views of a Hummock version: the combined levels and the object
    ids in them, the number of levels of a group, the table-to-group map, and
    the per-group summaries of which runs a delta inserts and deletes. The
    groups are visited in an explicit order, the iteration order of the
    version's hash map. */
module HummockQueries {
  import opened Wrappers
  import opened HummockTypes
  import opened HummockSummary
  import opened HummockSplit

  // The messages of the errors and panics modelled below.
  const DELTA_GROUP_MISSING: string := "compaction group should exist"

  // ---------------------------------------------------------------------
  // get_combined_levels / get_object_ids

  function Reverse<T>(s: seq<T>): (r: seq<T>)
    ensures |r| == |s|
    ensures forall i | 0 <= i < |s| :: r[i] == s[|s| - 1 - i]
  {
    if s == [] then [] else Reverse(s[1..]) + [s[0]]
  }

  /** One group's levels as `get_combined_levels` lists them: the sub-levels
      of L0 newest first, then L1..Ln. */
  function GroupCombinedLevels(lv: Levels): seq<Level> {
    Reverse(lv.l0.subLevels) + lv.levels
  }

  /** `get_combined_levels`. */
  function CombinedLevels(v: HummockVersion, order: seq<nat>): seq<Level>
    requires forall g | g in order :: g in v.levels
    decreases |order|
  {
    if order == [] then [] else GroupCombinedLevels(v.levels[order[0]]) + CombinedLevels(v, order[1..])
  }

  /** The object ids of the runs of `ls`, level after level. */
  function ObjectIdsOf(ls: seq<Level>): seq<nat>
    decreases |ls|
  {
    if ls == [] then [] else RunObjectIds(ls[0].tableInfos) + ObjectIdsOf(ls[1..])
  }

  function RunObjectIds(runs: seq<SstableInfo>): (r: seq<nat>)
    ensures |r| == |runs|
    ensures forall i | 0 <= i < |runs| :: r[i] == runs[i].objectId
  {
    if runs == [] then [] else [runs[0].objectId] + RunObjectIds(runs[1..])
  }

  /** `get_object_ids`: no duplicates are removed. */
  function GetObjectIds(v: HummockVersion, order: seq<nat>): seq<nat>
    requires forall g | g in order :: g in v.levels
  {
    ObjectIdsOf(CombinedLevels(v, order))
  }

  /** The number of runs in `ls`. */
  function RunCount(ls: seq<Level>): nat
    decreases |ls|
  {
    if ls == [] then 0 else |ls[0].tableInfos| + RunCount(ls[1..])
  }

  /** A run of some level, in some group. */
  predicate RunIn(v: HummockVersion, order: seq<nat>, t: SstableInfo)
    requires forall g | g in order :: g in v.levels
  {
    exists g, l | g in order && l in GroupCombinedLevels(v.levels[g]) :: t in l.tableInfos
  }

  lemma {:induction false} ObjectIdsOfSpec(ls: seq<Level>)
    ensures |ObjectIdsOf(ls)| == RunCount(ls)
    ensures forall x :: x in ObjectIdsOf(ls) <==> exists l, t | l in ls && t in l.tableInfos :: t.objectId == x
    decreases |ls|
  {
    if ls != [] {
      ObjectIdsOfSpec(ls[1..]);
      forall x
        ensures x in ObjectIdsOf(ls) <==> exists l, t | l in ls && t in l.tableInfos :: t.objectId == x
      {
        if x in RunObjectIds(ls[0].tableInfos) {
          var i :| 0 <= i < |ls[0].tableInfos| && RunObjectIds(ls[0].tableInfos)[i] == x;
          assert ls[0] in ls && ls[0].tableInfos[i] in ls[0].tableInfos;
        }
        if exists l, t | l in ls && t in l.tableInfos :: t.objectId == x {
          var l, t :| l in ls && t in l.tableInfos && t.objectId == x;
          if l == ls[0] {
            var i :| 0 <= i < |l.tableInfos| && l.tableInfos[i] == t;
            assert RunObjectIds(ls[0].tableInfos)[i] == x;
          } else {
            assert l in ls[1..];
          }
        }
      }
    }
  }

  lemma {:induction false} CombinedLevelsSpec(v: HummockVersion, order: seq<nat>)
    requires forall g | g in order :: g in v.levels
    ensures forall l :: l in CombinedLevels(v, order) <==> exists g | g in order :: l in GroupCombinedLevels(v.levels[g])
    decreases |order|
  {
    if order != [] {
      CombinedLevelsSpec(v, order[1..]);
      assert forall g | g in order :: g == order[0] || g in order[1..];
    }
  }

  /** `get_object_ids` lists the object id of every run of every group's
      levels, once per run, and nothing else. */
  lemma GetObjectIdsSpec(v: HummockVersion, order: seq<nat>)
    requires forall g | g in order :: g in v.levels
    ensures |GetObjectIds(v, order)| == RunCount(CombinedLevels(v, order))
    ensures forall x :: x in GetObjectIds(v, order) <==> exists t | RunIn(v, order, t) :: t.objectId == x
  {
    ObjectIdsOfSpec(CombinedLevels(v, order));
    CombinedLevelsSpec(v, order);
  }

  /** Visiting every group once, `get_object_ids` lists the object ids of
      the runs of every group's levels, and nothing else. */
  lemma VersionObjectIds(v: HummockVersion, order: seq<nat>)
    requires Enumerates(v, order)
    ensures forall x :: x in GetObjectIds(v, order) <==>
      exists g, l, t | g in v.levels && l in GroupCombinedLevels(v.levels[g]) && t in l.tableInfos :: t.objectId == x
  {
    GetObjectIdsSpec(v, order);
  }

  // ---------------------------------------------------------------------
  // num_levels

  /** `num_levels`: L0 plus the other levels, 0 for a missing group. */
  function NumLevels(v: HummockVersion, g: nat): nat {
    if g in v.levels then |v.levels[g].levels| + 1 else 0
  }

  /** A group's levels seen one by one (`level_iter`) are its L0 sub-levels
      and its `NumLevels - 1` other levels; a missing group has none. */
  lemma NumLevelsSpec(v: HummockVersion, g: nat)
    ensures NumLevels(v, g) == 0 <==> g !in v.levels
    ensures g in v.levels ==>
      NumLevels(v, g) == |GroupCombinedLevels(v.levels[g])| - |v.levels[g].l0.subLevels| + 1
  {
  }

  // ---------------------------------------------------------------------
  // build_compaction_group_info

  /** The map with every member table of `g` sent to `g`, added over `m`. */
  function AddGroupTables(m: map<nat, nat>, g: nat, ids: seq<nat>): (r: map<nat, nat>)
    ensures r.Keys == m.Keys + IdSet(ids)
    ensures forall t | t in r :: r[t] == (if t in ids then g else m[t])
    decreases |ids|
  {
    if ids == [] then m else AddGroupTables(m[ids[0] := g], g, ids[1..])
  }

  /** `build_compaction_group_info`: a group visited later overwrites what an
      earlier one put for the same table. */
  function CompactionGroupInfo(v: HummockVersion, order: seq<nat>): map<nat, nat>
    requires forall g | g in order :: g in v.levels
    decreases |order|
  {
    if order == [] then map[]
    else
      var p := order[..|order| - 1];
      var g := order[|order| - 1];
      AddGroupTables(CompactionGroupInfo(v, p), g, v.levels[g].memberTableIds)
  }

  /** The last group of `order` that lists table `t` as a member. */
  function LastListing(v: HummockVersion, order: seq<nat>, t: nat): Option<nat>
    requires forall g | g in order :: g in v.levels
    decreases |order|
  {
    if order == [] then None
    else if t in v.levels[order[|order| - 1]].memberTableIds then Some(order[|order| - 1])
    else LastListing(v, order[..|order| - 1], t)
  }

  /** The last listing group is a listing group with no listing group after
      it, and there is none exactly when no group lists the table. */
  lemma {:induction false} LastListingSpec(v: HummockVersion, order: seq<nat>, t: nat)
    requires forall g | g in order :: g in v.levels
    ensures LastListing(v, order, t).None? <==> forall g | g in order :: t !in v.levels[g].memberTableIds
    ensures LastListing(v, order, t).Some? ==> exists i | 0 <= i < |order| ::
      && order[i] == LastListing(v, order, t).value && t in v.levels[order[i]].memberTableIds
      && forall j | i < j < |order| :: t !in v.levels[order[j]].memberTableIds
    decreases |order|
  {
    if order != [] {
      var p := order[..|order| - 1];
      var n := |order| - 1;
      assert forall h | h in p :: h in order;
      assert forall h | h in order :: h == order[n] || h in p;
      LastListingSpec(v, p, t);
      if t !in v.levels[order[n]].memberTableIds && LastListing(v, p, t).Some? {
        var i :| 0 <= i < |p| && p[i] == LastListing(v, p, t).value && t in v.levels[p[i]].memberTableIds
                 && forall j | i < j < |p| :: t !in v.levels[p[j]].memberTableIds;
        assert order[i] == p[i];
        forall j | i < j < |order|
          ensures t !in v.levels[order[j]].memberTableIds
        {
          if j < n {
            assert order[j] == p[j];
          }
        }
      }
    }
  }

  /** `build_compaction_group_info` maps a table to the last visited group
      that lists it, and has no other tables. */
  lemma {:induction false} CompactionGroupInfoSpec(v: HummockVersion, order: seq<nat>)
    requires forall g | g in order :: g in v.levels
    ensures forall t :: t in CompactionGroupInfo(v, order) <==> LastListing(v, order, t).Some?
    ensures forall t | t in CompactionGroupInfo(v, order) :: CompactionGroupInfo(v, order)[t] == LastListing(v, order, t).value
    decreases |order|
  {
    if order != [] {
      var p := order[..|order| - 1];
      assert forall h | h in p :: h in order;
      CompactionGroupInfoSpec(v, p);
    }
  }

  /** Visiting every group once, `build_compaction_group_info` maps exactly
      the member tables of the version's groups, each to a group listing it;
      a table only one group lists maps to that group. */
  lemma VersionCompactionGroupInfo(v: HummockVersion, order: seq<nat>)
    requires Enumerates(v, order)
    ensures var info := CompactionGroupInfo(v, order);
      && (forall t :: t in info <==> exists g | g in v.levels :: t in v.levels[g].memberTableIds)
      && (forall t | t in info :: info[t] in v.levels && t in v.levels[info[t]].memberTableIds)
      && (forall t, g | g in v.levels && t in v.levels[g].memberTableIds &&
                        (forall h | h in v.levels && h != g :: t !in v.levels[h].memberTableIds) ::
            t in info && info[t] == g)
  {
    CompactionGroupInfoSpec(v, order);
    forall t ensures LastListing(v, order, t).None? <==> forall g | g in v.levels :: t !in v.levels[g].memberTableIds
      ensures LastListing(v, order, t).Some? ==>
        var g := LastListing(v, order, t).value;
        g in v.levels && t in v.levels[g].memberTableIds
    {
      LastListingSpec(v, order, t);
    }
  }

  /** The loop of `build_compaction_group_info`. */
  method BuildCompactionGroupInfo(v: HummockVersion, order: seq<nat>) returns (info: map<nat, nat>)
    requires forall g | g in order :: g in v.levels
    ensures info == CompactionGroupInfo(v, order)
  {
    info := map[];
    var i := 0;
    while i < |order|
      invariant 0 <= i <= |order|
      invariant info == CompactionGroupInfo(v, order[..i])
    {
      assert order[..i + 1][..i] == order[..i];
      var ids := v.levels[order[i]].memberTableIds;
      ghost var before := info;
      var k := 0;
      while k < |ids|
        invariant 0 <= k <= |ids|
        invariant AddGroupTables(info, order[i], ids[k..]) == AddGroupTables(before, order[i], ids)
      {
        assert ids[k..][1..] == ids[k + 1..];
        info := info[ids[k] := order[i]];
        k := k + 1;
      }
      i := i + 1;
    }
    assert order[..i] == order;
  }

  // ---------------------------------------------------------------------
  // build_sst_delta_infos

  /** What one group's deltas insert and delete: the level of the last
      insert (0 when nothing is inserted), every inserted run, and the object
      ids of the deleted runs. */
  datatype SstDeltaInfo = SstDeltaInfo(insertSstLevel: nat, insertSstInfos: seq<SstableInfo>, deleteSstObjectIds: seq<nat>)

  /** The runs of `runs` whose id is still in `removed`, in order: each one
      found is taken out of `removed`, so a later run with the same id is
      not picked again. Gives their object ids and the ids never found. */
  function TakeRemoved(runs: seq<SstableInfo>, removed: set<nat>): (r: (seq<nat>, set<nat>))
    decreases |runs|
  {
    if runs == [] then ([], removed)
    else if runs[0].sstId in removed then
      var rest := TakeRemoved(runs[1..], removed - {runs[0].sstId});
      ([runs[0].objectId] + rest.0, rest.1)
    else TakeRemoved(runs[1..], removed)
  }

  /** Run `i` is the first run of `runs` with its id. */
  predicate FirstWithId(runs: seq<SstableInfo>, i: int) {
    0 <= i < |runs| && forall j | 0 <= j < i :: runs[j].sstId != runs[i].sstId
  }

  lemma FirstWithIdTail(runs: seq<SstableInfo>, i: int)
    requires 0 < i < |runs|
    ensures FirstWithId(runs, i) <==> FirstWithId(runs[1..], i - 1) && runs[0].sstId != runs[i].sstId
  {
    assert forall j | 0 <= j < i - 1 :: runs[1..][j] == runs[j + 1];
  }

  lemma SstIdsCons(runs: seq<SstableInfo>)
    requires runs != []
    ensures SstIds(runs) == {runs[0].sstId} + SstIds(runs[1..])
  {
    assert forall u | u in runs[1..] :: u in runs;
    assert forall u | u in runs :: u == runs[0] || u in runs[1..];
  }

  /** The ids left over are exactly the removed ids no run has. */
  lemma {:induction false} TakeRemovedLeft(runs: seq<SstableInfo>, removed: set<nat>)
    ensures TakeRemoved(runs, removed).1 == removed - SstIds(runs)
    decreases |runs|
  {
    if runs != [] {
      SstIdsCons(runs);
      if runs[0].sstId in removed {
        TakeRemovedLeft(runs[1..], removed - {runs[0].sstId});
      } else {
        TakeRemovedLeft(runs[1..], removed);
      }
    }
  }

  /** One object id is picked per removed id found. */
  lemma {:induction false} TakeRemovedCount(runs: seq<SstableInfo>, removed: set<nat>)
    ensures |TakeRemoved(runs, removed).0| + |TakeRemoved(runs, removed).1| == |removed|
    decreases |runs|
  {
    if runs != [] {
      if runs[0].sstId in removed {
        TakeRemovedCount(runs[1..], removed - {runs[0].sstId});
      } else {
        TakeRemovedCount(runs[1..], removed);
      }
    }
  }

  /** Each object id picked belongs to a run whose id was removed. */
  lemma {:induction false} TakeRemovedPicks(runs: seq<SstableInfo>, removed: set<nat>)
    ensures forall x | x in TakeRemoved(runs, removed).0 :: exists t | t in runs :: t.sstId in removed && t.objectId == x
    decreases |runs|
  {
    if runs != [] {
      assert forall u | u in runs[1..] :: u in runs;
      if runs[0].sstId in removed {
        TakeRemovedPicks(runs[1..], removed - {runs[0].sstId});
        assert runs[0] in runs;
      } else {
        TakeRemovedPicks(runs[1..], removed);
      }
    }
  }

  /** Every run that is the first with a removed id has its object id
      picked. */
  lemma {:induction false} TakeRemovedComplete(runs: seq<SstableInfo>, removed: set<nat>)
    ensures forall i | FirstWithId(runs, i) && runs[i].sstId in removed :: runs[i].objectId in TakeRemoved(runs, removed).0
    decreases |runs|
  {
    if runs != [] {
      var removed' := if runs[0].sstId in removed then removed - {runs[0].sstId} else removed;
      TakeRemovedComplete(runs[1..], removed');
      forall i | FirstWithId(runs, i) && runs[i].sstId in removed
        ensures runs[i].objectId in TakeRemoved(runs, removed).0
      {
        if i > 0 {
          FirstWithIdTail(runs, i);
          assert runs[1..][i - 1] == runs[i];
        }
      }
    }
  }

  /** Each object id picked is that of a run which is the first with a
      removed id. */
  lemma {:induction false} TakeRemovedFirstPicks(runs: seq<SstableInfo>, removed: set<nat>)
    ensures forall x | x in TakeRemoved(runs, removed).0 ::
      exists i | FirstWithId(runs, i) :: runs[i].sstId in removed && runs[i].objectId == x
    decreases |runs|
  {
    if runs != [] {
      var removed' := if runs[0].sstId in removed then removed - {runs[0].sstId} else removed;
      TakeRemovedFirstPicks(runs[1..], removed');
      forall x | x in TakeRemoved(runs, removed).0
        ensures exists i | FirstWithId(runs, i) :: runs[i].sstId in removed && runs[i].objectId == x
      {
        if runs[0].sstId in removed && x == runs[0].objectId {
          assert FirstWithId(runs, 0);
        } else {
          var i :| FirstWithId(runs[1..], i) && runs[1..][i].sstId in removed' && runs[1..][i].objectId == x;
          FirstWithIdTail(runs, i + 1);
          assert FirstWithId(runs, i + 1);
        }
      }
    }
  }

  /** What one level's scan deletes: one object id per removed id some run
      has, taken from the first run with that id, and every such run's. */
  lemma TakeRemovedExact(runs: seq<SstableInfo>, removed: set<nat>)
    ensures |TakeRemoved(runs, removed).0| == |removed * SstIds(runs)|
    ensures forall i | FirstWithId(runs, i) && runs[i].sstId in removed :: runs[i].objectId in TakeRemoved(runs, removed).0
    ensures forall x | x in TakeRemoved(runs, removed).0 ::
      exists i | FirstWithId(runs, i) :: runs[i].sstId in removed && runs[i].objectId == x
  {
    TakeRemovedCount(runs, removed);
    TakeRemovedLeft(runs, removed);
    TakeRemovedComplete(runs, removed);
    TakeRemovedFirstPicks(runs, removed);
    var s := SstIds(runs);
    assert removed == (removed - s) + (removed * s);
    assert (removed - s) * (removed * s) == {};
  }

  /** Scanning two stretches of runs one after the other is scanning them
      together. */
  lemma {:induction false} TakeRemovedAppend(a: seq<SstableInfo>, b: seq<SstableInfo>, removed: set<nat>)
    ensures TakeRemoved(a + b, removed).0 == TakeRemoved(a, removed).0 + TakeRemoved(b, TakeRemoved(a, removed).1).0
    ensures TakeRemoved(a + b, removed).1 == TakeRemoved(b, TakeRemoved(a, removed).1).1
    decreases |a|
  {
    if a == [] {
      assert a + b == b;
    } else {
      assert (a + b)[0] == a[0] && (a + b)[1..] == a[1..] + b;
      if a[0].sstId in removed {
        TakeRemovedAppend(a[1..], b, removed - {a[0].sstId});
      } else {
        TakeRemovedAppend(a[1..], b, removed);
      }
    }
  }

  /** The loop over one level's runs. */
  method TakeRemovedRuns(runs: seq<SstableInfo>, removed0: set<nat>) returns (objs: seq<nat>, removed: set<nat>)
    ensures objs == TakeRemoved(runs, removed0).0 && removed == TakeRemoved(runs, removed0).1
  {
    objs, removed := [], removed0;
    var i := 0;
    assert runs[0..] == runs;
    while i < |runs|
      invariant 0 <= i <= |runs|
      invariant objs + TakeRemoved(runs[i..], removed).0 == TakeRemoved(runs, removed0).0
      invariant TakeRemoved(runs[i..], removed).1 == TakeRemoved(runs, removed0).1
    {
      assert runs[i..][0] == runs[i] && runs[i..][1..] == runs[i + 1..];
      if runs[i].sstId in removed {
        removed := removed - {runs[i].sstId};
        objs := objs + [runs[i].objectId];
      }
      i := i + 1;
    }
  }

  /** The removed run ids of the intra-level deltas on level `lv`. */
  function RemovedAt(ds: seq<GroupDelta>, lv: nat): set<nat> {
    set i, x | 0 <= i < |ds| && ds[i].IntraLevel? && ds[i].intra.levelIdx == lv && x in ds[i].intra.removedTableIds :: x
  }

  /** The non-L0 levels some intra-level delta removes runs from. */
  function RemovedLevels(ds: seq<GroupDelta>): set<nat> {
    set i | 0 <= i < |ds| && ds[i].IntraLevel? && ds[i].intra.levelIdx != 0 && ds[i].intra.removedTableIds != [] :: ds[i].intra.levelIdx
  }

  /** The removed run ids of each non-L0 level, as the `removed_ssts` map
      collects them. */
  function PendingRemovals(ds: seq<GroupDelta>): map<nat, set<nat>> {
    map l: nat | l in RemovedLevels(ds) :: RemovedAt(ds, l)
  }

  /** The level of the last delta that inserts runs, 0 when none does. */
  function LastInsertLevel(ds: seq<GroupDelta>): nat
    decreases |ds|
  {
    if ds == [] then 0
    else
      var last := ds[|ds| - 1];
      if last.IntraLevel? && last.intra.insertedTableInfos != [] then last.intra.levelIdx
      else LastInsertLevel(ds[..|ds| - 1])
  }

  /** The object ids deleted from the non-L0 levels from `ls` on: a level
      whose index still has pending removed ids takes them and drops the
      entry, so a second level with the same index finds none. */
  function LevelDeletes(ls: seq<Level>, pending: map<nat, set<nat>>): seq<nat>
    decreases |ls|
  {
    if ls == [] then []
    else if ls[0].levelIdx in pending then
      TakeRemoved(ls[0].tableInfos, pending[ls[0].levelIdx]).0 + LevelDeletes(ls[1..], pending - {ls[0].levelIdx})
    else LevelDeletes(ls[1..], pending)
  }

  /** The object ids deleted from L0's sub-levels from `subs` on. */
  function SubLevelDeletes(subs: seq<Level>, removed: set<nat>): seq<nat>
    decreases |subs|
  {
    if subs == [] then []
    else
      var r := TakeRemoved(subs[0].tableInfos, removed);
      r.0 + SubLevelDeletes(subs[1..], r.1)
  }

  predicate AllIntraLevel(ds: seq<GroupDelta>) {
    forall i | 0 <= i < |ds| :: ds[i].IntraLevel?
  }

  /** One group's `SstDeltaInfo`; `None` when some delta is not intra-level
      and the group is skipped. */
  function GroupSstDeltaInfo(lv: Levels, ds: seq<GroupDelta>): Option<SstDeltaInfo> {
    if !AllIntraLevel(ds) then None
    else
      var pending: map<nat, set<nat>> := PendingRemovals(ds);
      Some(SstDeltaInfo(LastInsertLevel(ds), InsertedRuns(ds),
                        SubLevelDeletes(lv.l0.subLevels, RemovedAt(ds, 0)) + LevelDeletes(lv.levels, pending)))
  }

  /** `build_sst_delta_infos`: one entry per group whose deltas are all
      intra-level, in the order of the delta's groups; a group that is not
      in the version is a panic. */
  function SstDeltaInfosFrom(v: HummockVersion, d: HummockVersionDelta, i: nat): Result<seq<SstDeltaInfo>, string>
    requires i <= |d.groupDeltas|
    decreases |d.groupDeltas| - i
  {
    if i == |d.groupDeltas| then Success([])
    else
      var g := d.groupDeltas[i].0;
      var ds := d.groupDeltas[i].1;
      var rest := SstDeltaInfosFrom(v, d, i + 1);
      if !AllIntraLevel(ds) then rest
      else if g !in v.levels then Failure(DELTA_GROUP_MISSING)
      else if rest.Failure? then rest
      else Success([GroupSstDeltaInfo(v.levels[g], ds).value] + rest.value)
  }

  /** Scanning the sub-levels one by one, the leftover ids passed on, is
      scanning all their runs at once. */
  lemma {:induction false} SubLevelDeletesFlat(subs: seq<Level>, removed: set<nat>)
    ensures SubLevelDeletes(subs, removed) == TakeRemoved(FlattenRuns(subs), removed).0
    decreases |subs|
  {
    if subs != [] {
      assert subs == [subs[0]] + subs[1..];
      FlattenRunsAppend([subs[0]], subs[1..]);
      FlattenRunsSingle(subs[0]);
      TakeRemovedAppend(subs[0].tableInfos, FlattenRuns(subs[1..]), removed);
      SubLevelDeletesFlat(subs[1..], TakeRemoved(subs[0].tableInfos, removed).1);
    }
  }

  /** The object ids picked from L0: each is that of a run with a removed
      id, there is one per removed id some sub-level has, and the first run
      (oldest sub-level first) with each such id contributes its object id. */
  lemma {:induction false} SubLevelDeletesSpec(subs: seq<Level>, removed: set<nat>)
    ensures forall x | x in SubLevelDeletes(subs, removed) ::
      exists l, t | l in subs && t in l.tableInfos :: t.sstId in removed && t.objectId == x
    ensures |SubLevelDeletes(subs, removed)| <= |removed|
    ensures |SubLevelDeletes(subs, removed)| == |removed * SstIds(FlattenRuns(subs))|
    ensures forall i | FirstWithId(FlattenRuns(subs), i) && FlattenRuns(subs)[i].sstId in removed ::
      FlattenRuns(subs)[i].objectId in SubLevelDeletes(subs, removed)
    ensures forall x | x in SubLevelDeletes(subs, removed) ::
      exists i | FirstWithId(FlattenRuns(subs), i) :: FlattenRuns(subs)[i].sstId in removed && FlattenRuns(subs)[i].objectId == x
    decreases |subs|
  {
    SubLevelDeletesFlat(subs, removed);
    TakeRemovedExact(FlattenRuns(subs), removed);
    if subs != [] {
      var r := TakeRemoved(subs[0].tableInfos, removed);
      TakeRemovedPicks(subs[0].tableInfos, removed);
      TakeRemovedCount(subs[0].tableInfos, removed);
      TakeRemovedLeft(subs[0].tableInfos, removed);
      SubLevelDeletesSpec(subs[1..], r.1);
      assert subs[0] in subs;
      assert forall l | l in subs[1..] :: l in subs;
      assert |r.1| <= |removed|;
    }
  }

  /** Level `k` is the first of `ls` with its index. */
  predicate FirstWithIdx(ls: seq<Level>, k: int) {
    0 <= k < |ls| && forall j | 0 <= j < k :: ls[j].levelIdx != ls[k].levelIdx
  }

  lemma FirstWithIdxTail(ls: seq<Level>, k: int)
    requires 0 < k < |ls|
    ensures FirstWithIdx(ls, k) <==> FirstWithIdx(ls[1..], k - 1) && ls[0].levelIdx != ls[k].levelIdx
  {
    assert forall j | 0 <= j < k - 1 :: ls[1..][j] == ls[j + 1];
  }

  /** The object ids picked from L1..Ln: every run that is the first with a
      pending id, on the first level with a pending index, contributes its
      object id, and nothing else is picked. */
  lemma {:induction false} LevelDeletesSpec(ls: seq<Level>, pending: map<nat, set<nat>>)
    ensures forall k, i | FirstWithIdx(ls, k) && ls[k].levelIdx in pending && FirstWithId(ls[k].tableInfos, i)
                          && ls[k].tableInfos[i].sstId in pending[ls[k].levelIdx] ::
      ls[k].tableInfos[i].objectId in LevelDeletes(ls, pending)
    ensures forall x | x in LevelDeletes(ls, pending) ::
      exists k, i | FirstWithIdx(ls, k) && ls[k].levelIdx in pending && FirstWithId(ls[k].tableInfos, i) ::
        ls[k].tableInfos[i].sstId in pending[ls[k].levelIdx] && ls[k].tableInfos[i].objectId == x
    decreases |ls|
  {
    if ls != [] {
      var h := ls[0];
      var pending' := if h.levelIdx in pending then pending - {h.levelIdx} else pending;
      LevelDeletesSpec(ls[1..], pending');
      if h.levelIdx in pending {
        TakeRemovedExact(h.tableInfos, pending[h.levelIdx]);
      }
      forall k, i | FirstWithIdx(ls, k) && ls[k].levelIdx in pending && FirstWithId(ls[k].tableInfos, i)
                    && ls[k].tableInfos[i].sstId in pending[ls[k].levelIdx]
        ensures ls[k].tableInfos[i].objectId in LevelDeletes(ls, pending)
      {
        if k > 0 {
          FirstWithIdxTail(ls, k);
          assert ls[1..][k - 1] == ls[k];
        }
      }
      forall x | x in LevelDeletes(ls, pending)
        ensures exists k, i | FirstWithIdx(ls, k) && ls[k].levelIdx in pending && FirstWithId(ls[k].tableInfos, i) ::
          ls[k].tableInfos[i].sstId in pending[ls[k].levelIdx] && ls[k].tableInfos[i].objectId == x
      {
        if h.levelIdx in pending && x in TakeRemoved(h.tableInfos, pending[h.levelIdx]).0 {
          var i :| FirstWithId(h.tableInfos, i) && h.tableInfos[i].sstId in pending[h.levelIdx] && h.tableInfos[i].objectId == x;
          assert FirstWithIdx(ls, 0);
        } else {
          var k, i :| FirstWithIdx(ls[1..], k) && ls[1..][k].levelIdx in pending' && FirstWithId(ls[1..][k].tableInfos, i)
                      && ls[1..][k].tableInfos[i].sstId in pending'[ls[1..][k].levelIdx] && ls[1..][k].tableInfos[i].objectId == x;
          assert ls[1..][k] == ls[k + 1];
          FirstWithIdxTail(ls, k + 1);
          assert FirstWithIdx(ls, k + 1);
        }
      }
    }
  }

  /** A group's deleted object ids, over all inputs: the L0 part has one id
      per id the L0 deltas remove that some sub-level has, and an object id
      is deleted exactly when it belongs to the first L0 run with an id the
      L0 deltas remove, or to the first run with an id removed from level
      `l` on the first level with index `l`. */
  lemma GroupSstDeltaInfoDeletes(lv: Levels, ds: seq<GroupDelta>, x: nat)
    requires AllIntraLevel(ds)
    ensures |SubLevelDeletes(lv.l0.subLevels, RemovedAt(ds, 0))| == |RemovedAt(ds, 0) * SstIds(FlattenRuns(lv.l0.subLevels))|
    ensures x in GroupSstDeltaInfo(lv, ds).value.deleteSstObjectIds <==>
      (exists i | FirstWithId(FlattenRuns(lv.l0.subLevels), i) ::
         FlattenRuns(lv.l0.subLevels)[i].sstId in RemovedAt(ds, 0) && FlattenRuns(lv.l0.subLevels)[i].objectId == x)
      || (exists k, i | FirstWithIdx(lv.levels, k) && FirstWithId(lv.levels[k].tableInfos, i) ::
            lv.levels[k].levelIdx in RemovedLevels(ds)
            && lv.levels[k].tableInfos[i].sstId in RemovedAt(ds, lv.levels[k].levelIdx)
            && lv.levels[k].tableInfos[i].objectId == x)
  {
    SubLevelDeletesSpec(lv.l0.subLevels, RemovedAt(ds, 0));
    LevelDeletesSpec(lv.levels, PendingRemovals(ds));
  }

  /** Exactly the groups whose deltas are all intra-level get an entry,
      one each. */
  lemma {:induction false} SstDeltaInfosSpec(v: HummockVersion, d: HummockVersionDelta, i: nat)
    requires i <= |d.groupDeltas|
    requires SstDeltaInfosFrom(v, d, i).Success?
    ensures |SstDeltaInfosFrom(v, d, i).value| == |set k | i <= k < |d.groupDeltas| && AllIntraLevel(d.groupDeltas[k].1)|
    decreases |d.groupDeltas| - i
  {
    if i < |d.groupDeltas| {
      SstDeltaInfosSpec(v, d, i + 1);
      var here := set k | i <= k < |d.groupDeltas| && AllIntraLevel(d.groupDeltas[k].1);
      var later := set k | i + 1 <= k < |d.groupDeltas| && AllIntraLevel(d.groupDeltas[k].1);
      if AllIntraLevel(d.groupDeltas[i].1) {
        assert here == later + {i};
      } else {
        assert here == later;
      }
    }
  }

  /** The loop of `build_sst_delta_infos` over L0's sub-levels. */
  method CollectSubLevelDeletes(subs: seq<Level>, removed0: set<nat>) returns (deletes: seq<nat>)
    ensures deletes == SubLevelDeletes(subs, removed0)
  {
    deletes := [];
    var removed := removed0;
    var j := 0;
    assert subs[0..] == subs;
    while j < |subs|
      invariant 0 <= j <= |subs|
      invariant deletes + SubLevelDeletes(subs[j..], removed) == SubLevelDeletes(subs, removed0)
    {
      assert subs[j..][1..] == subs[j + 1..];
      var objs;
      objs, removed := TakeRemovedRuns(subs[j].tableInfos, removed);
      deletes := deletes + objs;
      j := j + 1;
    }
    assert subs[j..] == [];
  }

  /** The loop of `build_sst_delta_infos` over L1..Ln, taking each level's
      pending removals out of the map. */
  method CollectLevelDeletes(ls: seq<Level>, pending0: map<nat, set<nat>>) returns (deletes: seq<nat>)
    ensures deletes == LevelDeletes(ls, pending0)
  {
    deletes := [];
    var pending: map<nat, set<nat>> := pending0;
    var k := 0;
    assert ls[0..] == ls;
    while k < |ls|
      invariant 0 <= k <= |ls|
      invariant deletes + LevelDeletes(ls[k..], pending) == LevelDeletes(ls, pending0)
    {
      assert ls[k..][1..] == ls[k + 1..];
      var level := ls[k];
      if level.levelIdx in pending {
        var objs, _ := TakeRemovedRuns(level.tableInfos, pending[level.levelIdx]);
        deletes := deletes + objs;
        pending := pending - {level.levelIdx};
      }
      k := k + 1;
    }
    assert ls[k..] == [];
  }

  /** The loop of `build_sst_delta_infos` over one group. */
  method BuildGroupSstDeltaInfo(lv: Levels, ds: seq<GroupDelta>) returns (info: Option<SstDeltaInfo>)
    ensures info == GroupSstDeltaInfo(lv, ds)
  {
    if !AllIntraLevel(ds) {
      return None;
    }
    var l0Deletes := CollectSubLevelDeletes(lv.l0.subLevels, RemovedAt(ds, 0));
    var levelDeletes := CollectLevelDeletes(lv.levels, PendingRemovals(ds));
    info := Some(SstDeltaInfo(LastInsertLevel(ds), InsertedRuns(ds), l0Deletes + levelDeletes));
  }

  /** `build_sst_delta_infos`. */
  method BuildSstDeltaInfos(v: HummockVersion, d: HummockVersionDelta) returns (r: Result<seq<SstDeltaInfo>, string>)
    ensures r == SstDeltaInfosFrom(v, d, 0)
  {
    var infos: seq<SstDeltaInfo> := [];
    var i := 0;
    ghost var all := SstDeltaInfosFrom(v, d, 0);
    if all.Success? {
      assert [] + all.value == all.value;
    }
    while i < |d.groupDeltas|
      invariant 0 <= i <= |d.groupDeltas|
      invariant SstDeltaInfosFrom(v, d, i).Failure? ==> SstDeltaInfosFrom(v, d, 0) == SstDeltaInfosFrom(v, d, i)
      invariant SstDeltaInfosFrom(v, d, i).Success? ==>
        SstDeltaInfosFrom(v, d, 0) == Success(infos + SstDeltaInfosFrom(v, d, i).value)
    {
      var g := d.groupDeltas[i].0;
      var ds := d.groupDeltas[i].1;
      ghost var rest := SstDeltaInfosFrom(v, d, i + 1);
      if AllIntraLevel(ds) {
        if g !in v.levels {
          return Failure(DELTA_GROUP_MISSING);
        }
        var info := BuildGroupSstDeltaInfo(v.levels[g], ds);
        if rest.Success? {
          assert infos + ([info.value] + rest.value) == (infos + [info.value]) + rest.value;
        }
        infos := infos + [info.value];
      }
      i := i + 1;
    }
    assert infos + [] == infos;
    r := Success(infos);
  }
}
