/** `validate_version`: every invariant violation a version shows, in the
    order the checker finds them. The violation messages are a datatype
    here. */
module HummockValidate {
  import opened Wrappers
  import opened HummockTypes
  import opened HummockLevels
  import opened HummockSummary
  import opened HummockVersionUpdate

  datatype Violation =
    | SafeEpochAboveCommitted(safeEpoch: nat, maxCommittedEpoch: nat)
    | GroupIdMismatch(group: nat, levelsGroupId: nat)
    | MembersUnsorted(group: nat)
    | DuplicatedTable(group: nat, tableId: nat, firstGroup: nat)
    | SubLevelIdOutOfOrder(group: nat, subLevelId: nat, prevSubLevelId: nat)
    | EmptySubLevel(group: nat, subLevelId: nat)
    | NotNonOverlapping(group: nat, levelIdx: nat)
    | LevelIdxMismatch(group: nat, levelIdx: nat, expected: nat)
    | TableIdsUnsorted(group: nat, levelIdx: nat, objectId: nat)
    | KeyRangeOverlap(group: nat, levelIdx: nat, objectId: nat)

  /** Each id smaller than the next: `is_sorted_by` with a comparison that
      calls equal ids out of order. */
  predicate StrictlyAscending(s: seq<nat>) {
    forall i, j | 0 <= i < j < |s| :: s[i] < s[j]
  }

  // ---------------------------------------------------------------------
  // The checks, as functions of what is checked

  /** The checks on each run of level `l`, from `runs` on, where `prev` is
      the run before them in a non-overlapping level. */
  function RunViolations(g: nat, l: Level, runs: seq<SstableInfo>, prev: Option<SstableInfo>): seq<Violation>
    decreases |runs|
  {
    if runs == [] then []
    else
      var t := runs[0];
      (if StrictlyAscending(t.tableIds) then [] else [TableIdsUnsorted(g, l.levelIdx, t.objectId)])
      + (if l.levelType == Nonoverlapping && prev.Some? && !(prev.value.keyRange.right < t.keyRange.left)
         then [KeyRangeOverlap(g, l.levelIdx, t.objectId)] else [])
      + RunViolations(g, l, runs[1..], if l.levelType == Nonoverlapping then Some(t) else prev)
  }

  /** The checks on a level's own fields: a sub-level (index 0) must hold a
      run, any other level must be non-overlapping, and the index must be
      the expected one. */
  function LevelHeaderViolations(g: nat, expected: nat, l: Level): seq<Violation> {
    (if l.levelIdx == 0 then (if l.tableInfos == [] then [EmptySubLevel(g, l.subLevelId)] else [])
     else if l.levelType != Nonoverlapping then [NotNonOverlapping(g, l.levelIdx)] else [])
    + (if l.levelIdx != expected then [LevelIdxMismatch(g, l.levelIdx, expected)] else [])
  }

  /** The `validate_level` closure. */
  function LevelViolations(g: nat, expected: nat, l: Level): seq<Violation> {
    LevelHeaderViolations(g, expected, l) + RunViolations(g, l, l.tableInfos, None)
  }

  /** The checks on L0's sub-levels from `subs` on, where `prev` is the id
      of the sub-level before them: each id must be greater than the one
      before. */
  function SubLevelViolations(g: nat, subs: seq<Level>, prev: Option<nat>): seq<Violation>
    decreases |subs|
  {
    if subs == [] then []
    else
      var s := subs[0];
      (if prev.Some? && s.subLevelId <= prev.value then [SubLevelIdOutOfOrder(g, s.subLevelId, prev.value)] else [])
      + LevelViolations(g, 0, s)
      + SubLevelViolations(g, subs[1..], Some(s.subLevelId))
  }

  /** The sub-level checks as the source writes them: the previous id starts
      at `u64::MAX` and a sub-level is reported when its id is not smaller
      than the previous one, so ids are required to descend. */
  function SubLevelViolationsAsWritten(g: nat, subs: seq<Level>, prev: nat): seq<Violation>
    decreases |subs|
  {
    if subs == [] then []
    else
      var s := subs[0];
      (if s.subLevelId >= prev then [SubLevelIdOutOfOrder(g, s.subLevelId, prev)] else [])
      + LevelViolations(g, 0, s)
      + SubLevelViolationsAsWritten(g, subs[1..], s.subLevelId)
  }

  /** The checks on levels L`k + 1`..Ln, each against its expected index. */
  function NonL0Violations(g: nat, ls: seq<Level>, k: nat): seq<Violation>
    decreases |ls| - k
  {
    if k >= |ls| then [] else LevelViolations(g, k + 1, ls[k]) + NonL0Violations(g, ls, k + 1)
  }

  /** The duplicate checks on member ids: `seen` maps each table met so far
      to the group it was first met in. */
  function DuplicateViolations(g: nat, ids: seq<nat>, seen: map<nat, nat>): seq<Violation>
    decreases |ids|
  {
    if ids == [] then []
    else if ids[0] in seen then [DuplicatedTable(g, ids[0], seen[ids[0]])] + DuplicateViolations(g, ids[1..], seen)
    else DuplicateViolations(g, ids[1..], seen[ids[0] := g])
  }

  /** `seen` after the member ids `ids` of group `g` were met. */
  function Record(seen: map<nat, nat>, g: nat, ids: seq<nat>): map<nat, nat>
    decreases |ids|
  {
    if ids == [] then seen
    else Record(if ids[0] in seen then seen else seen[ids[0] := g], g, ids[1..])
  }

  /** Every check on one group. */
  function GroupViolations(g: nat, lv: Levels, seen: map<nat, nat>): seq<Violation> {
    (if lv.groupId != g then [GroupIdMismatch(g, lv.groupId)] else [])
    + (if SortedIds(lv.memberTableIds) then [] else [MembersUnsorted(g)])
    + DuplicateViolations(g, lv.memberTableIds, seen)
    + SubLevelViolations(g, lv.l0.subLevels, None)
    + NonL0Violations(g, lv.levels, 0)
  }

  /** The checks on the groups listed in `order`, in that order. */
  function GroupsViolations(v: HummockVersion, order: seq<nat>, seen: map<nat, nat>): seq<Violation>
    requires forall g | g in order :: g in v.levels
    decreases |order|
  {
    if order == [] then []
    else
      var g := order[0];
      GroupViolations(g, v.levels[g], seen)
      + GroupsViolations(v, order[1..], Record(seen, g, v.levels[g].memberTableIds))
  }

  /** `validate_version`, with the groups visited in the order `order` (the
      iteration order of the version's hash map). */
  function Violations(v: HummockVersion, order: seq<nat>): seq<Violation>
    requires forall g | g in order :: g in v.levels
  {
    (if v.safeEpoch > v.maxCommittedEpoch then [SafeEpochAboveCommitted(v.safeEpoch, v.maxCommittedEpoch)] else [])
    + GroupsViolations(v, order, map[])
  }

  // ---------------------------------------------------------------------
  // What a version without violations is

  predicate RunsWellFormed(l: Level) {
    && AllTableIdsAscending(l.tableInfos)
    && (l.levelType == Nonoverlapping ==> CanConcat(l.tableInfos))
  }

  /** A sub-level (`expected` 0) holds a run; any other level is
      non-overlapping; the index is the expected one. */
  predicate LevelWellFormed(expected: nat, l: Level) {
    && l.levelIdx == expected
    && (expected == 0 ==> l.tableInfos != [])
    && (expected != 0 ==> l.levelType == Nonoverlapping)
    && RunsWellFormed(l)
  }

  predicate GroupWellFormed(g: nat, lv: Levels) {
    && lv.groupId == g
    && SortedIds(lv.memberTableIds)
    && SubLevelIdsAscending(lv.l0.subLevels)
    && SubLevelsWellFormed(lv.l0.subLevels)
    && (forall i | 0 <= i < |lv.levels| :: LevelWellFormed(i + 1, lv.levels[i]))
  }

  predicate Distinct(s: seq<nat>) {
    forall i, j | 0 <= i < j < |s| :: s[i] != s[j]
  }

  /** The member ids of the groups in `order`, one group after the other. */
  function AllMembers(v: HummockVersion, order: seq<nat>): seq<nat>
    requires forall g | g in order :: g in v.levels
    decreases |order|
  {
    if order == [] then [] else v.levels[order[0]].memberTableIds + AllMembers(v, order[1..])
  }

  /** A version the checker has nothing to report on: the safe epoch is not
      above the committed one, every group is well formed, and no table is
      a member twice (`order` lists the groups). */
  predicate VersionWellFormed(v: HummockVersion, order: seq<nat>)
    requires Enumerates(v, order)
  {
    && v.safeEpoch <= v.maxCommittedEpoch
    && (forall g | g in v.levels :: GroupWellFormed(g, v.levels[g]))
    && Distinct(AllMembers(v, order))
  }

  // ---------------------------------------------------------------------
  // Nothing is reported exactly when nothing is wrong

  /** Every run's table ids ascend strictly. */
  predicate AllTableIdsAscending(runs: seq<SstableInfo>) {
    forall i | 0 <= i < |runs| :: StrictlyAscending(runs[i].tableIds)
  }

  lemma CanConcatCons(runs: seq<SstableInfo>)
    requires runs != []
    ensures CanConcat(runs) <==> CanConcat(runs[1..]) && (|runs| > 1 ==> runs[0].keyRange.right < runs[1].keyRange.left)
  {
    var rest := runs[1..];
    if CanConcat(rest) && (|runs| > 1 ==> runs[0].keyRange.right < runs[1].keyRange.left) {
      forall i, j | 0 <= i < |runs| && 0 <= j < |runs| && j == i + 1
        ensures runs[i].keyRange.right < runs[j].keyRange.left
      {
        if i > 0 {
          assert rest[i - 1] == runs[i] && rest[j - 1] == runs[j];
        }
      }
    }
    if CanConcat(runs) {
      forall i, j | 0 <= i < |rest| && 0 <= j < |rest| && j == i + 1
        ensures rest[i].keyRange.right < rest[j].keyRange.left
      {
        assert rest[i] == runs[i + 1] && rest[j] == runs[j + 1];
      }
    }
  }

  lemma {:induction false} RunViolationsEmpty(g: nat, l: Level, runs: seq<SstableInfo>, prev: Option<SstableInfo>)
    requires l.levelType != Nonoverlapping ==> prev.None?
    ensures RunViolations(g, l, runs, prev) == [] <==>
      && AllTableIdsAscending(runs)
      && (l.levelType == Nonoverlapping ==>
            CanConcat(runs) && (prev.Some? && runs != [] ==> prev.value.keyRange.right < runs[0].keyRange.left))
    decreases |runs|
  {
    if runs != [] {
      var next := if l.levelType == Nonoverlapping then Some(runs[0]) else prev;
      RunViolationsEmpty(g, l, runs[1..], next);
      CanConcatCons(runs);
      assert AllTableIdsAscending(runs) <==> StrictlyAscending(runs[0].tableIds) && AllTableIdsAscending(runs[1..]) by {
        assert forall i | 1 <= i < |runs| :: runs[i] == runs[1..][i - 1];
      }
      assert |runs| > 1 ==> runs[1..][0] == runs[1];
    }
  }

  lemma LevelViolationsEmpty(g: nat, expected: nat, l: Level)
    ensures LevelViolations(g, expected, l) == [] <==> LevelWellFormed(expected, l)
  {
    RunViolationsEmpty(g, l, l.tableInfos, None);
  }

  lemma AscendingCons(subs: seq<Level>)
    requires subs != []
    ensures SubLevelIdsAscending(subs) <==>
      SubLevelIdsAscending(subs[1..]) && (|subs| > 1 ==> subs[0].subLevelId < subs[1].subLevelId)
  {
    var rest := subs[1..];
    if SubLevelIdsAscending(rest) && (|subs| > 1 ==> subs[0].subLevelId < subs[1].subLevelId) {
      forall i, j | 0 <= i < j < |subs|
        ensures subs[i].subLevelId < subs[j].subLevelId
      {
        if i > 0 {
          assert rest[i - 1] == subs[i] && rest[j - 1] == subs[j];
        } else if j > 1 {
          assert rest[0] == subs[1] && rest[j - 1] == subs[j];
        }
      }
    }
    if SubLevelIdsAscending(subs) {
      forall i, j | 0 <= i < j < |rest|
        ensures rest[i].subLevelId < rest[j].subLevelId
      {
        assert rest[i] == subs[i + 1] && rest[j] == subs[j + 1];
      }
    }
  }

  /** Every sub-level is a well-formed level 0. */
  predicate SubLevelsWellFormed(subs: seq<Level>) {
    forall i | 0 <= i < |subs| :: LevelWellFormed(0, subs[i])
  }

  lemma {:induction false} SubLevelViolationsEmpty(g: nat, subs: seq<Level>, prev: Option<nat>)
    ensures SubLevelViolations(g, subs, prev) == [] <==>
      && SubLevelIdsAscending(subs)
      && (prev.Some? && subs != [] ==> prev.value < subs[0].subLevelId)
      && SubLevelsWellFormed(subs)
    decreases |subs|
  {
    if subs != [] {
      SubLevelViolationsEmpty(g, subs[1..], Some(subs[0].subLevelId));
      LevelViolationsEmpty(g, 0, subs[0]);
      AscendingCons(subs);
      assert SubLevelsWellFormed(subs) <==> LevelWellFormed(0, subs[0]) && SubLevelsWellFormed(subs[1..]) by {
        assert forall i | 1 <= i < |subs| :: subs[i] == subs[1..][i - 1];
      }
      assert |subs| > 1 ==> subs[1..][0] == subs[1];
    }
  }

  lemma {:induction false} NonL0ViolationsEmpty(g: nat, ls: seq<Level>, k: nat)
    ensures NonL0Violations(g, ls, k) == [] <==> forall i | k <= i < |ls| :: LevelWellFormed(i + 1, ls[i])
    decreases |ls| - k
  {
    if k < |ls| {
      NonL0ViolationsEmpty(g, ls, k + 1);
      LevelViolationsEmpty(g, k + 1, ls[k]);
      var here := LevelViolations(g, k + 1, ls[k]);
      var later := NonL0Violations(g, ls, k + 1);
      assert NonL0Violations(g, ls, k) == here + later;
      assert here + later == [] <==> here == [] && later == [] by {
        assert |here + later| == |here| + |later|;
      }
      assert (forall i | k <= i < |ls| :: LevelWellFormed(i + 1, ls[i]))
        <==> LevelWellFormed(k + 1, ls[k]) && forall i | k + 1 <= i < |ls| :: LevelWellFormed(i + 1, ls[i]);
    }
  }

  lemma DuplicateViolationsEmpty(g: nat, ids: seq<nat>, seen: map<nat, nat>)
    ensures DuplicateViolations(g, ids, seen) == [] <==> Distinct(ids) && forall i | 0 <= i < |ids| :: ids[i] !in seen
    ensures Record(seen, g, ids).Keys == seen.Keys + IdSet(ids)
  {
    NoDuplicateViolations(g, ids, seen);
    RecordKeys(g, ids, seen);
  }

  lemma {:induction false} NoDuplicateViolations(g: nat, ids: seq<nat>, seen: map<nat, nat>)
    ensures DuplicateViolations(g, ids, seen) == [] <==> Distinct(ids) && forall i | 0 <= i < |ids| :: ids[i] !in seen
    decreases |ids|
  {
    if ids != [] {
      var next := if ids[0] in seen then seen else seen[ids[0] := g];
      NoDuplicateViolations(g, ids[1..], next);
      assert forall i | 1 <= i < |ids| :: ids[i] == ids[1..][i - 1];
      if ids[0] !in seen && Distinct(ids[1..]) && (forall i | 0 <= i < |ids[1..]| :: ids[1..][i] !in next) {
        forall i, j | 0 <= i < j < |ids|
          ensures ids[i] != ids[j]
        {
          if i > 0 {
            assert ids[1..][i - 1] == ids[i] && ids[1..][j - 1] == ids[j];
          } else {
            assert ids[0] in next && ids[1..][j - 1] !in next;
          }
        }
      }
    }
  }

  /** Recording a group's member ids adds exactly those ids. */
  lemma {:induction false} RecordKeys(g: nat, ids: seq<nat>, seen: map<nat, nat>)
    ensures Record(seen, g, ids).Keys == seen.Keys + IdSet(ids)
    decreases |ids|
  {
    if ids != [] {
      var next := if ids[0] in seen then seen else seen[ids[0] := g];
      RecordKeys(g, ids[1..], next);
      assert IdSet(ids) == {ids[0]} + IdSet(ids[1..]) by {
        assert ids == [ids[0]] + ids[1..];
      }
    }
  }

  lemma GroupViolationsEmpty(g: nat, lv: Levels, seen: map<nat, nat>)
    ensures GroupViolations(g, lv, seen) == [] <==>
      GroupWellFormed(g, lv) && Distinct(lv.memberTableIds) && forall i | 0 <= i < |lv.memberTableIds| :: lv.memberTableIds[i] !in seen
  {
    DuplicateViolationsEmpty(g, lv.memberTableIds, seen);
    SubLevelViolationsEmpty(g, lv.l0.subLevels, None);
    NonL0ViolationsEmpty(g, lv.levels, 0);
  }

  /** Joining two lists gives a list without repeats exactly when neither
      has any and they share no id. */
  lemma DistinctAppend(a: seq<nat>, b: seq<nat>)
    ensures Distinct(a + b) <==> Distinct(a) && Distinct(b) && forall i | 0 <= i < |b| :: b[i] !in a
  {
    if Distinct(a + b) {
      forall i, k | 0 <= i < |b| && 0 <= k < |a|
        ensures a[k] != b[i]
      {
        assert (a + b)[k] == a[k] && (a + b)[|a| + i] == b[i];
      }
      forall i, j | 0 <= i < j < |b|
        ensures b[i] != b[j]
      {
        assert (a + b)[|a| + i] == b[i] && (a + b)[|a| + j] == b[j];
      }
      forall i, j | 0 <= i < j < |a|
        ensures a[i] != a[j]
      {
        assert (a + b)[i] == a[i] && (a + b)[j] == a[j];
      }
    }
    if Distinct(a) && Distinct(b) && (forall i | 0 <= i < |b| :: b[i] !in a) {
      forall i, j | 0 <= i < j < |a + b|
        ensures (a + b)[i] != (a + b)[j]
      {
        if j < |a| {
        } else if i >= |a| {
          assert (a + b)[i] == b[i - |a|] && (a + b)[j] == b[j - |a|];
        } else {
          assert (a + b)[j] == b[j - |a|];
        }
      }
    }
  }

  lemma {:induction false} GroupsViolationsEmpty(v: HummockVersion, order: seq<nat>, seen: map<nat, nat>)
    requires forall g | g in order :: g in v.levels
    ensures GroupsViolations(v, order, seen) == [] <==>
      && (forall g | g in order :: GroupWellFormed(g, v.levels[g]))
      && Distinct(AllMembers(v, order))
      && (forall x | x in AllMembers(v, order) :: x !in seen)
    decreases |order|
  {
    if order != [] {
      var g := order[0];
      var ids := v.levels[g].memberTableIds;
      var seen' := Record(seen, g, ids);
      var rest := AllMembers(v, order[1..]);
      var here := GroupViolations(g, v.levels[g], seen);
      var later := GroupsViolations(v, order[1..], seen');
      GroupViolationsEmpty(g, v.levels[g], seen);
      GroupsViolationsEmpty(v, order[1..], seen');
      DuplicateViolationsEmpty(g, ids, seen);
      MembersStep(ids, rest, seen, seen');
      assert AllMembers(v, order) == ids + rest;
      assert GroupsViolations(v, order, seen) == here + later;
      assert here + later == [] <==> here == [] && later == [] by {
        assert |here + later| == |here| + |later|;
      }
      assert (forall h | h in order :: GroupWellFormed(h, v.levels[h]))
        <==> GroupWellFormed(g, v.levels[g]) && forall h | h in order[1..] :: GroupWellFormed(h, v.levels[h]) by {
        assert forall h | h in order[1..] :: h in order;
        assert forall h | h in order :: h == g || h in order[1..];
      }
    }
  }

  /** The member ids of one group followed by those of the later groups
      have no repeat and none met before exactly when the group's ids have
      none, and the later ones have none once the group's are recorded. */
  lemma MembersStep(ids: seq<nat>, rest: seq<nat>, seen: map<nat, nat>, seen': map<nat, nat>)
    requires seen'.Keys == seen.Keys + IdSet(ids)
    ensures (&& Distinct(ids) && (forall i | 0 <= i < |ids| :: ids[i] !in seen)
             && Distinct(rest) && (forall x | x in rest :: x !in seen'))
        <==> Distinct(ids + rest) && forall x | x in ids + rest :: x !in seen
  {
    DistinctAppend(ids, rest);
    assert forall x | x in ids + rest :: x in ids || x in rest;
    assert forall x | x in ids :: exists i | 0 <= i < |ids| :: ids[i] == x;
    assert forall i | 0 <= i < |rest| :: rest[i] in rest;
  }

  /** `validate_version` reports nothing exactly when the version is well
      formed: every kind of violation is found, wherever it is. */
  lemma ViolationsEmptyIffWellFormed(v: HummockVersion, order: seq<nat>)
    requires Enumerates(v, order)
    ensures Violations(v, order) == [] <==> VersionWellFormed(v, order)
  {
    GroupsViolationsEmpty(v, order, map[]);
  }

  /** As written, the sub-level check reports the second of any two
      sub-levels whose ids ascend, which is the order in which
      `insert_new_sub_level` keeps them. */
  lemma AsWrittenFlagsAscendingSubLevels(g: nat, subs: seq<Level>)
    requires |subs| >= 2 && SubLevelIdsAscending(subs)
    ensures SubLevelIdOutOfOrder(g, subs[1].subLevelId, subs[0].subLevelId) in SubLevelViolationsAsWritten(g, subs, U64_MAX)
  {
    var rest := SubLevelViolationsAsWritten(g, subs[1..], subs[0].subLevelId);
    assert subs[1..][0] == subs[1];
    assert SubLevelIdOutOfOrder(g, subs[1].subLevelId, subs[0].subLevelId) in rest;
  }

  /** A concrete L0 that commits build (ids 1 then 2, one run each): the
      checker as written reports it, the corrected one does not. */
  lemma AsWrittenRejectsCommittedL0()
    ensures var t := SstableInfo(1, 1, KeyRange(0, 1), [1], 1, 1);
      var subs := [NewSubLevel(1, Overlapping, [t]), NewSubLevel(2, Overlapping, [t])];
      && SubLevelIdsAscending(subs)
      && SubLevelViolationsAsWritten(7, subs, U64_MAX) != []
      && SubLevelViolations(7, subs, None) == []
  {
    var t := SstableInfo(1, 1, KeyRange(0, 1), [1], 1, 1);
    var subs := [NewSubLevel(1, Overlapping, [t]), NewSubLevel(2, Overlapping, [t])];
    AsWrittenFlagsAscendingSubLevels(7, subs);
    SubLevelViolationsEmpty(7, subs, None);
  }

  /** A group as `build_initial_compaction_group_levels` makes it passes
      every group check. */
  lemma InitialGroupWellFormed(g: nat, maxLevel: nat)
    ensures GroupViolations(g, InitialCompactionGroupLevels(g, maxLevel), map[]) == []
  {
    var lv := InitialCompactionGroupLevels(g, maxLevel);
    GroupViolationsEmpty(g, lv, map[]);
    assert lv.levels == seq(maxLevel, i requires 0 <= i < maxLevel => EmptyLevel(i + 1));
  }

  // ---------------------------------------------------------------------
  // Compaction keeps a group well formed

  /** No run of the group has an inverted key range. */
  predicate GroupRangesValid(lv: Levels) {
    && (forall j | 0 <= j < |lv.l0.subLevels| :: ValidRanges(lv.l0.subLevels[j].tableInfos))
    && (forall i | 0 <= i < |lv.levels| :: ValidRanges(lv.levels[i].tableInfos))
  }

  /** Runs drawn from two lists whose runs all have ascending table ids
      have ascending table ids too. */
  lemma AscendingFrom(a: seq<SstableInfo>, b: seq<SstableInfo>, c: seq<SstableInfo>)
    requires AllTableIdsAscending(b) && AllTableIdsAscending(c)
    requires forall t | t in a :: t in b || t in c
    ensures AllTableIdsAscending(a)
  {
    forall i | 0 <= i < |a| ensures StrictlyAscending(a[i].tableIds) {
      assert a[i] in a;
      if a[i] in b {
        var m :| 0 <= m < |b| && b[m] == a[i];
      } else {
        var m :| 0 <= m < |c| && c[m] == a[i];
      }
    }
  }

  /** A sub-level as the checker wants it, except that it may be empty. */
  predicate SubLevelShape(l: Level) {
    l.levelIdx == 0 && RunsWellFormed(l)
  }

  /** Deleting and inserting keep every sub-level in shape, and keep a
      sub-level holding runs when nothing is deleted from L0. */
  lemma CompactedSubLevelsShape(levels: Levels, s: GroupDeltasSummary)
    requires SubLevelsWellFormed(levels.l0.subLevels) && GroupRangesValid(levels)
    requires AllTableIdsAscending(s.insertTableInfos)
    requires InsertCompacted(DeleteFromLevels(levels, s.deleteSstLevels, s.deleteSstIds), s).Success?
    ensures var n := InsertCompacted(DeleteFromLevels(levels, s.deleteSstLevels, s.deleteSstIds), s).value;
      && (forall j | 0 <= j < |n.l0.subLevels| :: SubLevelShape(n.l0.subLevels[j]))
      && (0 !in s.deleteSstLevels ==> forall j | 0 <= j < |n.l0.subLevels| :: n.l0.subLevels[j].tableInfos != [])
  {
    var ins := s.insertTableInfos;
    var d := DeleteFromLevels(levels, s.deleteSstLevels, s.deleteSstIds);
    var n := InsertCompacted(d, s).value;
    forall j | 0 <= j < |n.l0.subLevels|
      ensures SubLevelShape(n.l0.subLevels[j])
      ensures 0 !in s.deleteSstLevels ==> n.l0.subLevels[j].tableInfos != []
    {
      var o, dj, nj := levels.l0.subLevels[j], d.l0.subLevels[j], n.l0.subLevels[j];
      assert LevelWellFormed(0, o) && ValidRanges(o.tableInfos);
      assert SameHeader(dj, o);
      AscendingFrom(dj.tableInfos, o.tableInfos, []);
      if 0 !in s.deleteSstLevels {
        assert o.tableInfos[0] in dj.tableInfos;
      }
      if ins != [] && s.insertSstLevelId == 0 && j == PartitionPoint(d.l0.subLevels, s.insertSubLevelId) {
        assert InsertedInto(dj, ins, nj);
        forall t | t in nj.tableInfos ensures t in dj.tableInfos || t in ins {
          assert t in multiset(nj.tableInfos);
        }
        AscendingFrom(nj.tableInfos, dj.tableInfos, ins);
        if dj.tableInfos != [] {
          assert dj.tableInfos[0] in multiset(nj.tableInfos);
        }
      }
    }
  }

  /** Deleting and inserting keep level `i + 1` well formed. */
  lemma CompactedLevelWellFormed(levels: Levels, s: GroupDeltasSummary, i: nat)
    requires i < |levels.levels| && LevelWellFormed(i + 1, levels.levels[i])
    requires ValidRanges(levels.levels[i].tableInfos)
    requires AllTableIdsAscending(s.insertTableInfos)
    requires InsertCompacted(DeleteFromLevels(levels, s.deleteSstLevels, s.deleteSstIds), s).Success?
    ensures var n := InsertCompacted(DeleteFromLevels(levels, s.deleteSstLevels, s.deleteSstIds), s).value;
      i < |n.levels| && LevelWellFormed(i + 1, n.levels[i])
  {
    var ins := s.insertTableInfos;
    var d := DeleteFromLevels(levels, s.deleteSstLevels, s.deleteSstIds);
    var n := InsertCompacted(d, s).value;
    var o, di, ni := levels.levels[i], d.levels[i], n.levels[i];
    assert SameHeader(di, o);
    AscendingFrom(di.tableInfos, o.tableInfos, []);
    if ins != [] && s.insertSstLevelId == i + 1 {
      assert InsertedInto(di, ins, ni);
      forall t | t in ni.tableInfos ensures t in di.tableInfos || t in ins {
        assert t in multiset(ni.tableInfos);
      }
      AscendingFrom(ni.tableInfos, di.tableInfos, ins);
    }
  }

  /** `apply_compact_ssts` keeps a well-formed group well formed, as long as
      no key range in it is inverted and the inserted runs' table ids
      ascend: L1..Ln stay non-overlapping and concat-able at their indexes,
      the sub-level ids stay ascending and no sub-level is left empty. */
  lemma ApplyCompactSstsKeepsGroupWellFormed(g: nat, levels: Levels, s: GroupDeltasSummary)
    requires GroupWellFormed(g, levels) && GroupRangesValid(levels)
    requires AllTableIdsAscending(s.insertTableInfos)
    requires ApplyCompactSsts(levels, s).Success?
    ensures GroupWellFormed(g, ApplyCompactSsts(levels, s).value)
  {
    var check := DeletedSstsExist(levels, s.deleteSstLevels, s.deleteSstIds);
    if check == Success(true) {
      var d := DeleteFromLevels(levels, s.deleteSstLevels, s.deleteSstIds);
      var n := InsertCompacted(d, s).value;
      var r := ApplyCompactSsts(levels, s).value;
      ApplyCompactSstsKeepsOrder(levels, s);
      forall i | 0 <= i < |levels.levels| ensures LevelWellFormed(i + 1, n.levels[i]) {
        CompactedLevelWellFormed(levels, s, i);
      }
      CompactedSubLevelsShape(levels, s);
      assert r.levels == n.levels && SameGroup(r, levels);
      forall j | 0 <= j < |r.l0.subLevels| ensures LevelWellFormed(0, r.l0.subLevels[j]) {
        if 0 in s.deleteSstLevels {
          var l := r.l0.subLevels[j];
          assert l in NonEmptySubLevels(n.l0.subLevels);
          var k :| 0 <= k < |n.l0.subLevels| && n.l0.subLevels[k] == l;
          assert SubLevelShape(n.l0.subLevels[k]);
        }
      }
    }
  }

  /** A compaction whose inserted runs have no inverted key range leaves
      none in the group, so the two lemmas above apply to the next
      compaction too. */
  lemma ApplyCompactSstsKeepsRangesValid(levels: Levels, s: GroupDeltasSummary)
    requires GroupRangesValid(levels) && ValidRanges(s.insertTableInfos)
    requires ApplyCompactSsts(levels, s).Success?
    ensures GroupRangesValid(ApplyCompactSsts(levels, s).value)
  {
    var r := ApplyCompactSsts(levels, s).value;
    if DeletedSstsExist(levels, s.deleteSstLevels, s.deleteSstIds) == Success(true) {
      ApplyCompactSstsContents(levels, s);
      ApplyCompactSstsL0Contents(levels, s);
      forall j, t | 0 <= j < |r.l0.subLevels| && t in r.l0.subLevels[j].tableInfos
        ensures t.keyRange.left <= t.keyRange.right
      {
        assert HasRun(r.l0.subLevels, t);
        if HasRun(levels.l0.subLevels, t) {
          var k :| 0 <= k < |levels.l0.subLevels| && t in levels.l0.subLevels[k].tableInfos;
        }
      }
      forall i, t | 0 <= i < |r.levels| && t in r.levels[i].tableInfos
        ensures t.keyRange.left <= t.keyRange.right
      {
        assert CompactedRuns(levels.levels[i].tableInfos, r.levels[i].tableInfos, i + 1, s);
      }
    }
  }

  // ---------------------------------------------------------------------
  // The checker, with its loops

  /** The run checks from run `i` on are those of run `i` followed by those
      of the rest. */
  lemma RunViolationsStep(g: nat, l: Level, i: nat, prev: Option<SstableInfo>)
    requires i < |l.tableInfos|
    ensures var t := l.tableInfos[i];
      RunViolations(g, l, l.tableInfos[i..], prev)
      == (if StrictlyAscending(t.tableIds) then [] else [TableIdsUnsorted(g, l.levelIdx, t.objectId)])
         + (if l.levelType == Nonoverlapping && prev.Some? && !(prev.value.keyRange.right < t.keyRange.left)
            then [KeyRangeOverlap(g, l.levelIdx, t.objectId)] else [])
         + RunViolations(g, l, l.tableInfos[i + 1..], if l.levelType == Nonoverlapping then Some(t) else prev)
  {
    assert l.tableInfos[i..][1..] == l.tableInfos[i + 1..] && l.tableInfos[i..][0] == l.tableInfos[i];
  }

  method ValidateLevel(g: nat, expected: nat, l: Level) returns (res: seq<Violation>)
    ensures res == LevelViolations(g, expected, l)
  {
    res := LevelHeaderViolations(g, expected, l);
    var prev: Option<SstableInfo> := None;
    var i := 0;
    while i < |l.tableInfos|
      invariant 0 <= i <= |l.tableInfos|
      invariant res + RunViolations(g, l, l.tableInfos[i..], prev) == LevelViolations(g, expected, l)
    {
      var t := l.tableInfos[i];
      var unsorted := if StrictlyAscending(t.tableIds) then [] else [TableIdsUnsorted(g, l.levelIdx, t.objectId)];
      var overlap := if l.levelType == Nonoverlapping && prev.Some? && !(prev.value.keyRange.right < t.keyRange.left)
                     then [KeyRangeOverlap(g, l.levelIdx, t.objectId)] else [];
      var step := unsorted + overlap;
      RunViolationsStep(g, l, i, prev);
      if l.levelType == Nonoverlapping {
        prev := Some(t);
      }
      ghost var later := RunViolations(g, l, l.tableInfos[i + 1..], prev);
      AppendAssoc(res, step, later);
      res := res + step;
      i := i + 1;
    }
  }

  /** The loop over a group's member ids, with the table-to-group map. */
  method CheckMembers(g: nat, ids: seq<nat>, seen0: map<nat, nat>) returns (res: seq<Violation>, seen: map<nat, nat>)
    ensures res == DuplicateViolations(g, ids, seen0)
    ensures seen == Record(seen0, g, ids)
  {
    res := [];
    seen := seen0;
    var i := 0;
    while i < |ids|
      invariant 0 <= i <= |ids|
      invariant res + DuplicateViolations(g, ids[i..], seen) == DuplicateViolations(g, ids, seen0)
      invariant Record(seen, g, ids[i..]) == Record(seen0, g, ids)
    {
      assert ids[i..][1..] == ids[i + 1..];
      if ids[i] in seen {
        res := res + [DuplicatedTable(g, ids[i], seen[ids[i]])];
      } else {
        seen := seen[ids[i] := g];
      }
      i := i + 1;
    }
  }

  /** The sub-level checks from sub-level `j` on are those of sub-level
      `j` followed by those of the rest. */
  lemma SubLevelViolationsStep(g: nat, subs: seq<Level>, j: nat, prev: Option<nat>)
    requires j < |subs|
    ensures SubLevelViolations(g, subs[j..], prev)
         == (if prev.Some? && subs[j].subLevelId <= prev.value then [SubLevelIdOutOfOrder(g, subs[j].subLevelId, prev.value)] else [])
            + LevelViolations(g, 0, subs[j]) + SubLevelViolations(g, subs[j + 1..], Some(subs[j].subLevelId))
  {
    assert subs[j..][1..] == subs[j + 1..] && subs[j..][0] == subs[j];
  }

  /** The loop over L0's sub-levels. */
  method CheckSubLevels(g: nat, subs: seq<Level>) returns (res: seq<Violation>)
    ensures res == SubLevelViolations(g, subs, None)
  {
    res := [];
    var prev: Option<nat> := None;
    var j := 0;
    while j < |subs|
      invariant 0 <= j <= |subs|
      invariant res + SubLevelViolations(g, subs[j..], prev) == SubLevelViolations(g, subs, None)
    {
      var order: seq<Violation> := [];
      if prev.Some? && subs[j].subLevelId <= prev.value {
        order := [SubLevelIdOutOfOrder(g, subs[j].subLevelId, prev.value)];
      }
      var lres := ValidateLevel(g, 0, subs[j]);
      ghost var later := SubLevelViolations(g, subs[j + 1..], Some(subs[j].subLevelId));
      SubLevelViolationsStep(g, subs, j, prev);
      AppendAssoc(res, order + lres, later);
      AppendAssoc(res, order, lres);
      res := res + order + lres;
      prev := Some(subs[j].subLevelId);
      j := j + 1;
    }
  }

  /** The loop over L1..Ln. */
  method CheckNonL0Levels(g: nat, ls: seq<Level>) returns (res: seq<Violation>)
    ensures res == NonL0Violations(g, ls, 0)
  {
    res := [];
    var k := 0;
    while k < |ls|
      invariant 0 <= k <= |ls|
      invariant res + NonL0Violations(g, ls, k) == NonL0Violations(g, ls, 0)
    {
      var lres := ValidateLevel(g, k + 1, ls[k]);
      res := res + lres;
      k := k + 1;
    }
  }

  /** The body of the loop over groups. */
  method ValidateGroup(g: nat, lv: Levels, seen0: map<nat, nat>) returns (res: seq<Violation>, seen: map<nat, nat>)
    ensures res == GroupViolations(g, lv, seen0)
    ensures seen == Record(seen0, g, lv.memberTableIds)
  {
    var dups;
    dups, seen := CheckMembers(g, lv.memberTableIds, seen0);
    var subs := CheckSubLevels(g, lv.l0.subLevels);
    var levels := CheckNonL0Levels(g, lv.levels);
    res := (if lv.groupId != g then [GroupIdMismatch(g, lv.groupId)] else [])
           + (if SortedIds(lv.memberTableIds) then [] else [MembersUnsorted(g)])
           + dups + subs + levels;
  }

  /** `validate_version`, visiting every group once: it reports nothing
      exactly when the version is well formed. */
  method ValidateVersion(v: HummockVersion, order: seq<nat>) returns (res: seq<Violation>)
    requires Enumerates(v, order)
    ensures res == Violations(v, order)
    ensures res == [] <==> VersionWellFormed(v, order)
  {
    ViolationsEmptyIffWellFormed(v, order);
    res := if v.safeEpoch > v.maxCommittedEpoch then [SafeEpochAboveCommitted(v.safeEpoch, v.maxCommittedEpoch)] else [];
    var seen: map<nat, nat> := map[];
    var i := 0;
    while i < |order|
      invariant 0 <= i <= |order|
      invariant res + GroupsViolations(v, order[i..], seen) == Violations(v, order)
    {
      assert order[i..][1..] == order[i + 1..];
      var gres;
      ghost var seen0 := seen;
      gres, seen := ValidateGroup(order[i], v.levels[order[i]], seen);
      ghost var later := GroupsViolations(v, order[i + 1..], seen);
      assert order[i..][0] == order[i];
      assert GroupsViolations(v, order[i..], seen0) == gres + later;
      AppendAssoc(res, gres, later);
      res := res + gres;
      i := i + 1;
    }
  }
}
