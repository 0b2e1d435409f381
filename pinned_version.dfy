/** A pinned Hummock version and the worker that keeps the ledger of pinned
    version ids: readers pin a version while they use it, and the worker
    tells the meta service which versions may be dropped. */
module PinnedVersion {
  import opened Wrappers
  import opened HummockTypes
  import opened HummockQueries

  // The messages of the errors and panics modelled below.
  const OLDER_VERSION: string := "pinning an older version"
  const PINNED_GROUP_MISSING: string := "compaction group should exist"

  /** The id no real version has (defined outside this model as 0). */
  const INVALID_VERSION_ID: nat := 0

  datatype PinVersionAction = Pin(versionId: nat) | Unpin(versionId: nat)

  // ---------------------------------------------------------------------
  // The guard and its channel

  /** The sending side of the channel to the worker: `sent` is what the
      worker will receive; sends to a closed channel are lost. */
  class PinChannel {
    var open: bool
    var sent: seq<PinVersionAction>

    constructor ()
      ensures open && sent == []
    {
      open, sent := true, [];
    }

    method Send(a: PinVersionAction)
      modifies this
      ensures open == old(open)
      ensures sent == if open then old(sent) + [a] else old(sent)
    {
      if open {
        sent := sent + [a];
      }
    }
  }

  /** `PinnedVersionGuard`: pins its version id when made and unpins it when
      dropped, once each. */
  class PinnedVersionGuard {
    const versionId: nat
    const tx: PinChannel
    var dropped: bool

    constructor (versionId: nat, tx: PinChannel)
      modifies tx
      ensures this.versionId == versionId && this.tx == tx && !dropped
      ensures tx.open == old(tx.open)
      ensures tx.sent == if tx.open then old(tx.sent) + [Pin(versionId)] else old(tx.sent)
    {
      this.versionId := versionId;
      this.tx := tx;
      dropped := false;
      new;
      tx.Send(Pin(versionId));
    }

    /** `Drop`: runs once, when the last holder lets go. */
    method Drop()
      requires !dropped
      modifies this, tx
      ensures dropped
      ensures tx.open == old(tx.open)
      ensures tx.sent == if tx.open then old(tx.sent) + [Unpin(versionId)] else old(tx.sent)
    {
      tx.Send(Unpin(versionId));
      dropped := true;
    }
  }

  // ---------------------------------------------------------------------
  // PinnedVersion

  /** An immutable pinned snapshot: the version, its table-to-group index,
      and the id its guard pins. */
  datatype PinnedVersion = PinnedVersion(version: HummockVersion, groupIndex: map<nat, nat>, pinnedId: nat)

  /** `PinnedVersion::new`, with the groups visited in `order`; the guard's
      Pin message is returned with it. */
  function NewPinnedVersion(v: HummockVersion, order: seq<nat>): (r: (PinnedVersion, PinVersionAction))
    requires forall g | g in order :: g in v.levels
    ensures r.0.version == v && r.1 == Pin(v.id) && r.0.pinnedId == v.id
  {
    (PinnedVersion(v, CompactionGroupInfo(v, order), v.id), Pin(v.id))
  }

  /** `new_pin_version`: pinning a version older than the current one is a
      panic. */
  function NewPinVersion(p: PinnedVersion, v: HummockVersion, order: seq<nat>): (r: Result<(PinnedVersion, PinVersionAction), string>)
    requires forall g | g in order :: g in v.levels
    ensures r.Success? <==> v.id >= p.version.id
    ensures r.Success? ==> r.value == NewPinnedVersion(v, order)
  {
    if v.id < p.version.id then Failure(OLDER_VERSION) else Success(NewPinnedVersion(v, order))
  }

  predicate IsValid(p: PinnedVersion) {
    p.version.id != INVALID_VERSION_ID
  }

  /** `levels(table_id)`: the levels of the table's group, L0 sub-levels
      newest first, then L1..Ln; none for a table in no group. A group id in
      the index that the version lacks is a panic. */
  function LevelsOf(p: PinnedVersion, tableId: nat): Result<seq<Level>, string> {
    if tableId !in p.groupIndex then Success([])
    else if p.groupIndex[tableId] !in p.version.levels then Failure(PINNED_GROUP_MISSING)
    else Success(GroupCombinedLevels(p.version.levels[p.groupIndex[tableId]]))
  }

  /** On a snapshot built by `new`, `levels` never panics: a table no group
      lists has no levels, and any other table gets the levels of the last
      visited group that lists it. */
  lemma LevelsOfSpec(v: HummockVersion, order: seq<nat>, tableId: nat)
    requires forall g | g in order :: g in v.levels
    ensures var r := LevelsOf(NewPinnedVersion(v, order).0, tableId);
      && r.Success?
      && (LastListing(v, order, tableId).None? ==> r.value == [])
      && (LastListing(v, order, tableId).Some? ==>
            && LastListing(v, order, tableId).value in v.levels
            && r.value == GroupCombinedLevels(v.levels[LastListing(v, order, tableId).value]))
  {
    CompactionGroupInfoSpec(v, order);
    LastListingSpec(v, order, tableId);
  }

  /** A table in no group's member list has no levels. */
  lemma LevelsOfUnlisted(v: HummockVersion, order: seq<nat>, tableId: nat)
    requires forall g | g in order :: g in v.levels
    requires forall g | g in order :: tableId !in v.levels[g].memberTableIds
    ensures LevelsOf(NewPinnedVersion(v, order).0, tableId) == Success([])
  {
    LastListingSpec(v, order, tableId);
    CompactionGroupInfoSpec(v, order);
  }

  // ---------------------------------------------------------------------
  // The worker's ledger

  /** One pinned version id: how many pins are held and when it was last
      pinned. */
  datatype PinEntry = PinEntry(versionId: nat, count: nat, pinnedAt: nat)

  /** Every entry of `l` has an id above `b`. */
  predicate Above(b: nat, l: seq<PinEntry>) {
    forall e | e in l :: b < e.versionId
  }

  /** The `BTreeMap` of version ids in use: ids strictly ascend and every
      count is positive. */
  predicate LedgerValid(l: seq<PinEntry>) {
    && (forall i, j | 0 <= i < j < |l| :: l[i].versionId < l[j].versionId)
    && (forall i | 0 <= i < |l| :: l[i].count > 0)
  }

  /** The entry for `id`, as the map's `get` finds it. */
  function Lookup(l: seq<PinEntry>, id: nat): Option<PinEntry>
    decreases |l|
  {
    if l == [] then None else if l[0].versionId == id then Some(l[0]) else Lookup(l[1..], id)
  }

  /** A Pin message: a new id enters with count 1; a known one gets one more
      pin and the new time. */
  function PinAt(l: seq<PinEntry>, id: nat, now: nat): seq<PinEntry>
    decreases |l|
  {
    if l == [] || id < l[0].versionId then [PinEntry(id, 1, now)] + l
    else if l[0].versionId == id then [l[0].(count := l[0].count + 1, pinnedAt := now)] + l[1..]
    else [l[0]] + PinAt(l[1..], id, now)
  }

  /** An Unpin applied to the ledger: one pin fewer, the entry gone at zero;
      an unknown id changes nothing. */
  function UnpinAt(l: seq<PinEntry>, id: nat): seq<PinEntry>
    decreases |l|
  {
    if l == [] then []
    else if l[0].versionId == id then (if l[0].count <= 1 then l[1..] else [l[0].(count := l[0].count - 1)] + l[1..])
    else [l[0]] + UnpinAt(l[1..], id)
  }

  lemma {:induction false} LedgerTail(l: seq<PinEntry>)
    requires LedgerValid(l) && l != []
    ensures LedgerValid(l[1..])
    ensures Above(l[0].versionId, l[1..])
  {
    forall i, j | 0 <= i < j < |l[1..]| ensures l[1..][i].versionId < l[1..][j].versionId {
      assert l[1..][i] == l[i + 1] && l[1..][j] == l[j + 1];
    }
    forall e | e in l[1..] ensures l[0].versionId < e.versionId {
      var k :| 0 <= k < |l[1..]| && l[1..][k] == e;
      assert l[k + 1] == e;
    }
  }

  lemma LedgerCons(e: PinEntry, l: seq<PinEntry>)
    requires LedgerValid(l) && e.count > 0 && Above(e.versionId, l)
    ensures LedgerValid([e] + l)
  {
    var r := [e] + l;
    forall i, j | 0 <= i < j < |r| ensures r[i].versionId < r[j].versionId {
      if i == 0 {
        assert r[j] == l[j - 1] && r[j] in l;
      } else {
        assert r[i] == l[i - 1] && r[j] == l[j - 1];
      }
    }
  }

  /** No id at or below a lower bound of the ledger is found in it. */
  lemma {:induction false} LookupAbove(b: nat, l: seq<PinEntry>, id: nat)
    requires Above(b, l) && id <= b
    ensures Lookup(l, id).None?
    decreases |l|
  {
    if l != [] {
      assert l[0] in l;
      assert Above(b, l[1..]) by {
        assert forall e | e in l[1..] :: e in l;
      }
      LookupAbove(b, l[1..], id);
    }
  }

  lemma {:induction false} PinAtAbove(b: nat, l: seq<PinEntry>, id: nat, now: nat)
    requires Above(b, l) && b < id
    ensures Above(b, PinAt(l, id, now))
    decreases |l|
  {
    var r := PinAt(l, id, now);
    if l == [] || id < l[0].versionId {
      assert forall e | e in r :: e == r[0] || e in l;
    } else {
      assert l[0] in l;
      assert Above(b, l[1..]) by {
        assert forall e | e in l[1..] :: e in l;
      }
      if l[0].versionId == id {
        assert forall e | e in r :: e == r[0] || e in l[1..];
      } else {
        PinAtAbove(b, l[1..], id, now);
        assert forall e | e in r :: e == l[0] || e in PinAt(l[1..], id, now);
      }
    }
  }

  lemma {:induction false} UnpinAtAbove(b: nat, l: seq<PinEntry>, id: nat)
    requires Above(b, l)
    ensures Above(b, UnpinAt(l, id))
    decreases |l|
  {
    if l != [] {
      assert Above(b, l[1..]) by {
        assert forall e | e in l[1..] :: e in l;
      }
      assert l[0] in l;
      if l[0].versionId != id {
        UnpinAtAbove(b, l[1..], id);
      }
    }
  }

  lemma {:induction false} PinAtValid(l: seq<PinEntry>, id: nat, now: nat)
    requires LedgerValid(l)
    ensures LedgerValid(PinAt(l, id, now))
    decreases |l|
  {
    if l == [] || id < l[0].versionId {
      if l != [] {
        LedgerTail(l);
        assert forall e | e in l :: e == l[0] || e in l[1..];
      }
      LedgerCons(PinEntry(id, 1, now), l);
    } else if l[0].versionId == id {
      LedgerTail(l);
      LedgerCons(l[0].(count := l[0].count + 1, pinnedAt := now), l[1..]);
    } else {
      LedgerTail(l);
      PinAtValid(l[1..], id, now);
      PinAtAbove(l[0].versionId, l[1..], id, now);
      LedgerCons(l[0], PinAt(l[1..], id, now));
    }
  }

  lemma {:induction false} UnpinAtValid(l: seq<PinEntry>, id: nat)
    requires LedgerValid(l)
    ensures LedgerValid(UnpinAt(l, id))
    decreases |l|
  {
    if l != [] {
      LedgerTail(l);
      if l[0].versionId == id {
        if l[0].count > 1 {
          LedgerCons(l[0].(count := l[0].count - 1), l[1..]);
        }
      } else {
        UnpinAtValid(l[1..], id);
        UnpinAtAbove(l[0].versionId, l[1..], id);
        LedgerCons(l[0], UnpinAt(l[1..], id));
      }
    }
  }

  /** A pin adds one to the id's count (one for an id not yet in use) and
      sets its time; every other id keeps its entry; the ledger stays
      valid. */
  lemma {:induction false} PinAtSpec(l: seq<PinEntry>, id: nat, now: nat)
    requires LedgerValid(l)
    ensures LedgerValid(PinAt(l, id, now))
    ensures Lookup(PinAt(l, id, now), id) ==
      Some(PinEntry(id, if Lookup(l, id).Some? then Lookup(l, id).value.count + 1 else 1, now))
    ensures forall x | x != id :: Lookup(PinAt(l, id, now), x) == Lookup(l, x)
    decreases |l|
  {
    PinAtValid(l, id, now);
    if l == [] || id < l[0].versionId {
      if l != [] {
        LedgerTail(l);
        assert Above(id, l) by {
          assert forall e | e in l :: e == l[0] || e in l[1..];
        }
        LookupAbove(id, l, id);
      }
      assert PinAt(l, id, now)[1..] == l;
    } else if l[0].versionId == id {
      assert PinAt(l, id, now)[1..] == l[1..];
    } else {
      LedgerTail(l);
      PinAtSpec(l[1..], id, now);
      assert PinAt(l, id, now)[1..] == PinAt(l[1..], id, now);
    }
  }

  /** An unpin of an id in use takes one pin off and drops the entry when
      no pin is left; an unpin of an id not in use changes nothing; every
      other id keeps its entry; the ledger stays valid. */
  lemma {:induction false} UnpinAtSpec(l: seq<PinEntry>, id: nat)
    requires LedgerValid(l)
    ensures LedgerValid(UnpinAt(l, id))
    ensures Lookup(l, id).None? ==> UnpinAt(l, id) == l
    ensures Lookup(UnpinAt(l, id), id) ==
      if Lookup(l, id).None? || Lookup(l, id).value.count <= 1 then None
      else Some(Lookup(l, id).value.(count := Lookup(l, id).value.count - 1))
    ensures forall x | x != id :: Lookup(UnpinAt(l, id), x) == Lookup(l, x)
    decreases |l|
  {
    UnpinAtValid(l, id);
    if l != [] {
      LedgerTail(l);
      if l[0].versionId == id {
        LookupAbove(id, l[1..], id);
        if l[0].count > 1 {
          assert UnpinAt(l, id)[1..] == l[1..];
        }
      } else {
        UnpinAtSpec(l[1..], id);
        assert UnpinAt(l, id)[1..] == UnpinAt(l[1..], id);
      }
    }
  }

  /** How long ago `t` was, never negative. */
  function Elapsed(now: nat, t: nat): nat {
    if now >= t then now - t else 0
  }

  /** Step 0 of the worker: while more than one id is in use, the oldest id
      is dropped if it was last pinned at least `maxPinning` ago. */
  function Expire(l: seq<PinEntry>, now: nat, maxPinning: nat): seq<PinEntry>
    decreases |l|
  {
    if |l| > 1 && Elapsed(now, l[0].pinnedAt) >= maxPinning then Expire(l[1..], now, maxPinning) else l
  }

  /** Expiry drops a prefix of the ledger, only entries pinned at least
      `maxPinning` ago, never the last entry, and stops at the first entry
      pinned more recently. */
  lemma ExpireSpec(l: seq<PinEntry>, now: nat, maxPinning: nat)
    ensures var r := Expire(l, now, maxPinning);
      && (exists k | 0 <= k <= |l| :: r == l[k..] && forall i | 0 <= i < k :: Elapsed(now, l[i].pinnedAt) >= maxPinning)
      && (l != [] ==> r != [])
      && (|r| > 1 ==> Elapsed(now, r[0].pinnedAt) < maxPinning)
      && (LedgerValid(l) ==> LedgerValid(r))
  {
    ExpireDropsExpired(l, now, maxPinning);
    ExpireStops(l, now, maxPinning);
    if LedgerValid(l) {
      ExpireKeepsValid(l, now, maxPinning);
    }
  }

  /** Expiry drops a prefix of entries that were all pinned long ago. */
  lemma {:induction false} ExpireDropsExpired(l: seq<PinEntry>, now: nat, maxPinning: nat)
    ensures exists k | 0 <= k <= |l| ::
      Expire(l, now, maxPinning) == l[k..] && forall i | 0 <= i < k :: Elapsed(now, l[i].pinnedAt) >= maxPinning
    decreases |l|
  {
    if |l| > 1 && Elapsed(now, l[0].pinnedAt) >= maxPinning {
      ExpireDropsExpired(l[1..], now, maxPinning);
      var r := Expire(l, now, maxPinning);
      var k :| 0 <= k <= |l[1..]| && r == l[1..][k..] && forall i | 0 <= i < k :: Elapsed(now, l[1..][i].pinnedAt) >= maxPinning;
      assert r == l[k + 1..];
      forall i | 0 <= i < k + 1 ensures Elapsed(now, l[i].pinnedAt) >= maxPinning {
        if i > 0 {
          assert l[i] == l[1..][i - 1];
        }
      }
    } else {
      assert l == l[0..];
    }
  }

  /** Expiry never drops the last entry and stops at a recent one. */
  lemma {:induction false} ExpireStops(l: seq<PinEntry>, now: nat, maxPinning: nat)
    ensures var r := Expire(l, now, maxPinning);
      (l != [] ==> r != []) && (|r| > 1 ==> Elapsed(now, r[0].pinnedAt) < maxPinning)
    decreases |l|
  {
    if |l| > 1 && Elapsed(now, l[0].pinnedAt) >= maxPinning {
      ExpireStops(l[1..], now, maxPinning);
    }
  }

  /** Expiry keeps the ledger valid. */
  lemma {:induction false} ExpireKeepsValid(l: seq<PinEntry>, now: nat, maxPinning: nat)
    requires LedgerValid(l)
    ensures LedgerValid(Expire(l, now, maxPinning))
    decreases |l|
  {
    if |l| > 1 && Elapsed(now, l[0].pinnedAt) >= maxPinning {
      LedgerTail(l);
      ExpireKeepsValid(l[1..], now, maxPinning);
    }
  }

  /** The Pin messages of `inbox`, applied in order (`inbox[..n]`). */
  function ApplyPins(l: seq<PinEntry>, inbox: seq<PinVersionAction>, now: nat): seq<PinEntry>
    decreases |inbox|
  {
    if inbox == [] then l
    else
      var p := ApplyPins(l, inbox[..|inbox| - 1], now);
      match inbox[|inbox| - 1]
      case Pin(id) => PinAt(p, id, now)
      case Unpin(_) => p
  }

  /** The ids of the Unpin messages of `inbox`, in order. */
  function UnpinIds(inbox: seq<PinVersionAction>): seq<nat>
    decreases |inbox|
  {
    if inbox == [] then []
    else
      var p := UnpinIds(inbox[..|inbox| - 1]);
      match inbox[|inbox| - 1]
      case Pin(_) => p
      case Unpin(id) => p + [id]
  }

  /** The collected Unpin ids applied in order. */
  function ApplyUnpins(l: seq<PinEntry>, ids: seq<nat>): seq<PinEntry>
    decreases |ids|
  {
    if ids == [] then l else UnpinAt(ApplyUnpins(l, ids[..|ids| - 1]), ids[|ids| - 1])
  }

  lemma {:induction false} ApplyPinsValid(l: seq<PinEntry>, inbox: seq<PinVersionAction>, now: nat)
    requires LedgerValid(l)
    ensures LedgerValid(ApplyPins(l, inbox, now))
    decreases |inbox|
  {
    if inbox != [] {
      ApplyPinsValid(l, inbox[..|inbox| - 1], now);
      if inbox[|inbox| - 1].Pin? {
        PinAtSpec(ApplyPins(l, inbox[..|inbox| - 1], now), inbox[|inbox| - 1].versionId, now);
      }
    }
  }

  lemma {:induction false} ApplyUnpinsValid(l: seq<PinEntry>, ids: seq<nat>)
    requires LedgerValid(l)
    ensures LedgerValid(ApplyUnpins(l, ids))
    decreases |ids|
  {
    if ids != [] {
      ApplyUnpinsValid(l, ids[..|ids| - 1]);
      UnpinAtSpec(ApplyUnpins(l, ids[..|ids| - 1]), ids[|ids| - 1]);
    }
  }

  /** What the worker holds between iterations. */
  datatype WorkerState = WorkerState(ledger: seq<PinEntry>, needUnpin: bool)

  /** What one iteration did: the new state, the id given to
      `unpin_version_before` if the RPC was issued, and whether the channel
      was found closed (the worker then stops). */
  datatype StepResult = StepResult(state: WorkerState, unpinBefore: Option<nat>, stopped: bool)

  /** One iteration of the worker loop at time `now`: `inbox` is what the
      channel held, `disconnected` whether it was then found closed, and
      `rpcOk` the outcome of the unpin RPC if one is made. */
  function WorkerStep(s: WorkerState, now: nat, maxPinning: nat, inbox: seq<PinVersionAction>,
                      disconnected: bool, rpcOk: bool): StepResult
  {
    var l1 := Expire(s.ledger, now, maxPinning);
    var need1 := s.needUnpin || |l1| < |s.ledger|;
    var l2 := ApplyPins(l1, inbox, now);
    if disconnected then StepResult(WorkerState(l2, need1), None, true)
    else
      var ids := UnpinIds(inbox);
      var need2 := need1 || ids != [];
      if !need2 then StepResult(WorkerState(l2, false), None, false)
      else
        var l3 := ApplyUnpins(l2, ids);
        if l3 == [] then StepResult(WorkerState(l3, true), None, false)
        else StepResult(WorkerState(l3, !rpcOk), Some(l3[0].versionId), false)
  }

  /** The unpin RPC is made only when something is to be unpinned and some
      version is still in use, with the smallest id in use; success clears
      the need to unpin, failure keeps it for the next iteration. The ledger
      stays valid. */
  lemma WorkerStepSpec(s: WorkerState, now: nat, maxPinning: nat, inbox: seq<PinVersionAction>,
                       disconnected: bool, rpcOk: bool)
    requires LedgerValid(s.ledger)
    ensures var r := WorkerStep(s, now, maxPinning, inbox, disconnected, rpcOk);
      && LedgerValid(r.state.ledger)
      && (r.unpinBefore.Some? <==>
            && !disconnected
            && (s.needUnpin || |Expire(s.ledger, now, maxPinning)| < |s.ledger| || UnpinIds(inbox) != [])
            && r.state.ledger != [])
      && (r.unpinBefore.Some? ==>
            && r.unpinBefore.value == r.state.ledger[0].versionId
            && (forall e | e in r.state.ledger :: r.unpinBefore.value <= e.versionId)
            && r.state.needUnpin == !rpcOk)
      && (!disconnected && UnpinIds(inbox) != [] && r.unpinBefore.None? ==> r.state.needUnpin)
  {
    var l1 := Expire(s.ledger, now, maxPinning);
    ExpireSpec(s.ledger, now, maxPinning);
    ApplyPinsValid(l1, inbox, now);
    var l2 := ApplyPins(l1, inbox, now);
    ApplyUnpinsValid(l2, UnpinIds(inbox));
    var l3 := ApplyUnpins(l2, UnpinIds(inbox));
    if l3 != [] {
      LedgerTail(l3);
      assert forall e | e in l3 :: e == l3[0] || e in l3[1..];
    }
  }

  /** The worker loop's state, updated in place by each iteration. */
  class PinnedVersionWorker {
    var ledger: seq<PinEntry>
    var needUnpin: bool

    function State(): WorkerState
      reads this
    {
      WorkerState(ledger, needUnpin)
    }

    constructor ()
      ensures State() == WorkerState([], false)
    {
      ledger, needUnpin := [], false;
    }

    /** One iteration of `start_pinned_version_worker`'s loop. */
    method Step(now: nat, maxPinning: nat, inbox: seq<PinVersionAction>, disconnected: bool, rpcOk: bool)
      returns (unpinBefore: Option<nat>, stopped: bool)
      modifies this
      ensures StepResult(State(), unpinBefore, stopped) == WorkerStep(old(State()), now, maxPinning, inbox, disconnected, rpcOk)
    {
      ghost var s0 := State();
      // 0. Expire versions.
      while |ledger| > 1 && Elapsed(now, ledger[0].pinnedAt) >= maxPinning
        invariant Expire(ledger, now, maxPinning) == Expire(s0.ledger, now, maxPinning)
        invariant needUnpin == (s0.needUnpin || |ledger| < |s0.ledger|)
        invariant |ledger| <= |s0.ledger|
        decreases |ledger|
      {
        needUnpin := true;
        ledger := ledger[1..];
      }
      assert ledger == Expire(s0.ledger, now, maxPinning);
      // 1. Collect new versions to unpin.
      var unpins: seq<nat> := [];
      var i := 0;
      while i < |inbox|
        invariant 0 <= i <= |inbox|
        invariant ledger == ApplyPins(Expire(s0.ledger, now, maxPinning), inbox[..i], now)
        invariant unpins == UnpinIds(inbox[..i])
        invariant needUnpin == (s0.needUnpin || |Expire(s0.ledger, now, maxPinning)| < |s0.ledger|)
      {
        assert inbox[..i + 1][..i] == inbox[..i];
        match inbox[i] {
          case Pin(id) => ledger := PinAt(ledger, id, now);
          case Unpin(id) => unpins := unpins + [id];
        }
        i := i + 1;
      }
      assert inbox[..i] == inbox;
      if disconnected {
        return None, true;
      }
      if unpins != [] {
        needUnpin := true;
      }
      if !needUnpin {
        return None, false;
      }
      var k := 0;
      while k < |unpins|
        invariant 0 <= k <= |unpins|
        invariant ledger == ApplyUnpins(ApplyPins(Expire(s0.ledger, now, maxPinning), inbox, now), unpins[..k])
        invariant needUnpin
      {
        assert unpins[..k + 1][..k] == unpins[..k];
        ledger := UnpinAt(ledger, unpins[k]);
        k := k + 1;
      }
      assert unpins[..k] == unpins;
      if ledger == [] {
        return None, false;
      }
      // 2. Call the unpin RPC with the smallest id still in use.
      unpinBefore := Some(ledger[0].versionId);
      stopped := false;
      if rpcOk {
        needUnpin := false;
      }
    }
  }
}
