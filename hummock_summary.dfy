/** `summarize_group_deltas`: what the deltas of one compaction group amount
    to, folded over the deltas in their order. */
module HummockSummary {
  import opened Wrappers
  import opened HummockTypes

  // The messages of the errors and panics modelled below.
  const DOUBLE_CONSTRUCT: string := "a group delta may construct its group only once"
  const DOUBLE_DESTROY: string := "a group delta may destroy its group only once"

  /** The summary of no deltas: nothing to delete, nothing to insert (the
      insert level and sub-level ids are the `u32::MAX` / `u64::MAX`
      placeholders). */
  function EmptySummary(): GroupDeltasSummary {
    GroupDeltasSummary({}, {}, U32_MAX, U64_MAX, [], None, false, [], None)
  }

  /** The ids listed in `s`. */
  function IdSet(s: seq<nat>): set<nat> {
    set x | x in s
  }

  /** One iteration of the loop in `summarize_group_deltas`. A second group
      construct or a second group destroy trips an assertion. */
  function AddToSummary(s: GroupDeltasSummary, d: GroupDelta): Result<GroupDeltasSummary, string> {
    match d
    case IntraLevel(intra) =>
      var s1 := if intra.removedTableIds == [] then s
                else s.(deleteSstLevels := s.deleteSstLevels + {intra.levelIdx},
                        deleteSstIds := s.deleteSstIds + IdSet(intra.removedTableIds));
      Success(if intra.insertedTableInfos == [] then s1
              else s1.(insertSstLevelId := intra.levelIdx, insertSubLevelId := intra.l0SubLevelId,
                       insertTableInfos := s1.insertTableInfos + intra.insertedTableInfos))
    case Construct(c) =>
      if s.groupConstruct.Some? then Failure(DOUBLE_CONSTRUCT)
      else Success(s.(groupConstruct := Some(c)))
    case Destroy =>
      if s.groupDestroy then Failure(DOUBLE_DESTROY)
      else Success(s.(groupDestroy := true))
    case MetaChange(meta) => Success(s.(groupMetaChanges := s.groupMetaChanges + [meta]))
    case TableChange(change) => Success(s.(groupTableChange := Some(change)))
  }

  /** The summary of `ds`, folded from the first delta to the last. */
  function SummaryOf(ds: seq<GroupDelta>): Result<GroupDeltasSummary, string>
    decreases |ds|
  {
    if ds == [] then Success(EmptySummary())
    else
      var p := SummaryOf(ds[..|ds| - 1]);
      if p.Failure? then p else AddToSummary(p.value, ds[|ds| - 1])
  }

  /** `summarize_group_deltas`. */
  method SummarizeGroupDeltas(ds: seq<GroupDelta>) returns (r: Result<GroupDeltasSummary, string>)
    ensures r == SummaryOf(ds)
  {
    var s := EmptySummary();
    var i := 0;
    while i < |ds|
      invariant 0 <= i <= |ds|
      invariant SummaryOf(ds[..i]) == Success(s)
    {
      assert ds[..i + 1][..i] == ds[..i];
      var next := AddToSummary(s, ds[i]);
      if next.Failure? {
        SummaryOfFailureStays(ds, i + 1);
        return next;
      }
      s, i := next.value, i + 1;
    }
    assert ds[..i] == ds;
    r := Success(s);
  }

  /** Once a prefix of the deltas fails, so do all of them, with the same
      error. */
  lemma {:induction false} SummaryOfFailureStays(ds: seq<GroupDelta>, k: nat)
    requires k <= |ds|
    requires SummaryOf(ds[..k]).Failure?
    ensures SummaryOf(ds) == SummaryOf(ds[..k])
    decreases |ds| - k
  {
    if k < |ds| {
      assert ds[..k + 1][..k] == ds[..k];
      SummaryOfFailureStays(ds, k + 1);
    } else {
      assert ds[..k] == ds;
    }
  }

  // ---------------------------------------------------------------------
  // What the summary holds, stated over the whole list of deltas

  /** The levels some intra-level delta removes runs from. */
  function RemovingLevels(ds: seq<GroupDelta>): set<nat> {
    set i | 0 <= i < |ds| && ds[i].IntraLevel? && ds[i].intra.removedTableIds != [] :: ds[i].intra.levelIdx
  }

  /** The run ids some intra-level delta removes. */
  function RemovedIds(ds: seq<GroupDelta>): set<nat> {
    set i, x | 0 <= i < |ds| && ds[i].IntraLevel? && x in ds[i].intra.removedTableIds :: x
  }

  /** The runs the intra-level deltas insert, in delta order. */
  function InsertedRuns(ds: seq<GroupDelta>): seq<SstableInfo>
    decreases |ds|
  {
    if ds == [] then []
    else
      var last := ds[|ds| - 1];
      InsertedRuns(ds[..|ds| - 1]) + (if last.IntraLevel? then last.intra.insertedTableInfos else [])
  }

  /** The meta changes among the deltas, in delta order. */
  function MetaChanges(ds: seq<GroupDelta>): seq<GroupMetaChange>
    decreases |ds|
  {
    if ds == [] then []
    else
      var last := ds[|ds| - 1];
      MetaChanges(ds[..|ds| - 1]) + (if last.MetaChange? then [last.meta] else [])
  }

  /** The last table change among the deltas, `None` when there is none. */
  function LastTableChange(ds: seq<GroupDelta>): Option<GroupTableChange>
    decreases |ds|
  {
    if ds == [] then None
    else if ds[|ds| - 1].TableChange? then Some(ds[|ds| - 1].change)
    else LastTableChange(ds[..|ds| - 1])
  }

  predicate HasConstruct(ds: seq<GroupDelta>) {
    exists i | 0 <= i < |ds| :: ds[i].Construct?
  }

  predicate HasDestroy(ds: seq<GroupDelta>) {
    exists i | 0 <= i < |ds| :: ds[i].Destroy?
  }

  /** Two of the deltas construct the group, or two destroy it. */
  predicate RepeatsConstructOrDestroy(ds: seq<GroupDelta>) {
    || (exists i, j | 0 <= i < j < |ds| :: ds[i].Construct? && ds[j].Construct?)
    || (exists i, j | 0 <= i < j < |ds| :: ds[i].Destroy? && ds[j].Destroy?)
  }

  lemma PrefixStep(ds: seq<GroupDelta>)
    requires ds != []
    ensures var p := ds[..|ds| - 1];
      && RemovingLevels(ds) == RemovingLevels(p) +
           (if ds[|ds| - 1].IntraLevel? && ds[|ds| - 1].intra.removedTableIds != [] then {ds[|ds| - 1].intra.levelIdx} else {})
      && RemovedIds(ds) == RemovedIds(p) +
           (if ds[|ds| - 1].IntraLevel? then IdSet(ds[|ds| - 1].intra.removedTableIds) else {})
      && (HasConstruct(ds) <==> HasConstruct(p) || ds[|ds| - 1].Construct?)
      && (HasDestroy(ds) <==> HasDestroy(p) || ds[|ds| - 1].Destroy?)
  {
    var p := ds[..|ds| - 1];
    var n := |ds| - 1;
    assert forall i | 0 <= i < n :: p[i] == ds[i];
    if HasConstruct(ds) && !ds[n].Construct? {
      var i :| 0 <= i < |ds| && ds[i].Construct?;
      assert p[i].Construct?;
    }
    if HasDestroy(ds) && !ds[n].Destroy? {
      var i :| 0 <= i < |ds| && ds[i].Destroy?;
      assert p[i].Destroy?;
    }
    if ds[n].IntraLevel? {
      forall x | x in ds[n].intra.removedTableIds ensures x in RemovedIds(ds) {
      }
    }
    forall x | x in RemovedIds(ds)
      ensures x in RemovedIds(p) || (ds[n].IntraLevel? && x in ds[n].intra.removedTableIds)
    {
      var i :| 0 <= i < |ds| && ds[i].IntraLevel? && x in ds[i].intra.removedTableIds;
      if i < n {
        assert p[i] == ds[i];
      }
    }
    forall l | l in RemovingLevels(ds)
      ensures l in RemovingLevels(p) || (ds[n].IntraLevel? && ds[n].intra.removedTableIds != [] && l == ds[n].intra.levelIdx)
    {
      var i :| 0 <= i < |ds| && ds[i].IntraLevel? && ds[i].intra.removedTableIds != [] && ds[i].intra.levelIdx == l;
      if i < n {
        assert p[i] == ds[i];
      }
    }
  }

  /** The summary collects exactly the removed run ids and the levels they
      are removed from, every inserted run in order, every meta change in
      order, the last table change, and whether the group is constructed or
      destroyed. */
  lemma {:induction false} SummaryOfContents(ds: seq<GroupDelta>)
    requires SummaryOf(ds).Success?
    ensures var s := SummaryOf(ds).value;
      && s.deleteSstLevels == RemovingLevels(ds)
      && s.deleteSstIds == RemovedIds(ds)
      && s.insertTableInfos == InsertedRuns(ds)
      && s.groupMetaChanges == MetaChanges(ds)
      && s.groupTableChange == LastTableChange(ds)
      && (s.groupConstruct.Some? <==> HasConstruct(ds))
      && (s.groupDestroy <==> HasDestroy(ds))
  {
    if ds != [] {
      SummaryOfContents(ds[..|ds| - 1]);
      PrefixStep(ds);
    }
  }

  /** The level and sub-level ids of the last delta that inserts runs,
      `None` when no delta inserts any. */
  function InsertTarget(ds: seq<GroupDelta>): Option<(nat, nat)>
    decreases |ds|
  {
    if ds == [] then None
    else
      var last := ds[|ds| - 1];
      if last.IntraLevel? && last.intra.insertedTableInfos != [] then Some((last.intra.levelIdx, last.intra.l0SubLevelId))
      else InsertTarget(ds[..|ds| - 1])
  }

  /** The insert target is that of the last delta inserting any run; when no
      delta inserts, nothing is inserted and the placeholders stay. */
  lemma {:induction false} SummaryOfInsertTarget(ds: seq<GroupDelta>)
    requires SummaryOf(ds).Success?
    ensures var s := SummaryOf(ds).value;
      match InsertTarget(ds)
      case None => s.insertTableInfos == [] && s.insertSstLevelId == U32_MAX && s.insertSubLevelId == U64_MAX
      case Some(target) => s.insertTableInfos != [] && (s.insertSstLevelId, s.insertSubLevelId) == target
  {
    if ds != [] {
      SummaryOfInsertTarget(ds[..|ds| - 1]);
    }
  }

  /** The summary fails exactly when the group is constructed twice or
      destroyed twice. */
  lemma {:induction false} SummaryOfFails(ds: seq<GroupDelta>)
    ensures SummaryOf(ds).Failure? <==> RepeatsConstructOrDestroy(ds)
  {
    if ds != [] {
      var p := ds[..|ds| - 1];
      var n := |ds| - 1;
      SummaryOfFails(p);
      assert forall i | 0 <= i < n :: p[i] == ds[i];
      if RepeatsConstructOrDestroy(p) {
        if exists i, j | 0 <= i < j < |p| :: p[i].Construct? && p[j].Construct? {
          var i, j :| 0 <= i < j < |p| && p[i].Construct? && p[j].Construct?;
          assert ds[i].Construct? && ds[j].Construct?;
        } else {
          var i, j :| 0 <= i < j < |p| && p[i].Destroy? && p[j].Destroy?;
          assert ds[i].Destroy? && ds[j].Destroy?;
        }
      } else {
        SummaryOfContents(p);
        PrefixStep(ds);
        if RepeatsConstructOrDestroy(ds) {
          if exists i, j | 0 <= i < j < |ds| :: ds[i].Construct? && ds[j].Construct? {
            var i, j :| 0 <= i < j < |ds| && ds[i].Construct? && ds[j].Construct?;
            if j == n {
              assert HasConstruct(p) by { assert p[i].Construct?; }
            }
          } else {
            var i, j :| 0 <= i < j < |ds| && ds[i].Destroy? && ds[j].Destroy?;
            if j == n {
              assert HasDestroy(p) by { assert p[i].Destroy?; }
            }
          }
        }
      }
    }
  }
}
