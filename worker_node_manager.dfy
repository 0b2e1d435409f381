/** The frontend's view of the cluster: the live worker nodes, which worker
    owns each parallel unit, the vnode mappings of fragments, and the choice
    of workers for a query. */
module WorkerNodeManagement {
  import opened Wrappers

  // The messages of the errors and panics modelled below.
  const EMPTY_WORKER_NODES: string := "EmptyWorkerNodes"
  const NO_WORKER_FOR_UNIT: string := "No worker node found for parallel unit id"
  const STREAMING_VNODE_MAPPING_NOT_FOUND: string := "StreamingVnodeMappingNotFound"
  const FRAGMENT_MAPPING_ALREADY_PRESENT: string := "fragment mapping already present"
  const FRAGMENT_MAPPING_ABSENT: string := "fragment mapping absent"
  const SERVING_VNODE_MAPPING_NOT_FOUND: string := "ServingVnodeMappingNotFound"

  datatype WorkerType = Frontend | ComputeNode | RiseCtl | Compactor | Meta | UnspecifiedType

  datatype Property = Property(isUnschedulable: bool, isServing: bool, isStreaming: bool)

  /** A worker node: its id, type, the ids of its parallel units, and its
      optional properties. */
  datatype WorkerNode = WorkerNode(id: nat, workerType: WorkerType, parallelUnits: seq<nat>, property: Option<Property>)

  /** A fragment's vnode mapping: the parallel unit of each vnode. */
  type ParallelUnitMapping = seq<nat>

  // ---------------------------------------------------------------------
  // Filters

  /** The elements of `s` that satisfy `p`, in their order. */
  function Filter<T>(s: seq<T>, p: T -> bool): seq<T>
    decreases |s|
  {
    if s == [] then [] else (if p(s[0]) then [s[0]] else []) + Filter(s[1..], p)
  }

  /** An element is kept exactly when it is in `s` and satisfies `p`. */
  lemma {:induction false} FilterMembers<T>(s: seq<T>, p: T -> bool)
    ensures forall x :: x in Filter(s, p) <==> x in s && p(x)
    ensures |Filter(s, p)| <= |s|
    decreases |s|
  {
    if s != [] {
      FilterMembers(s[1..], p);
      assert forall x | x in s :: x == s[0] || x in s[1..];
    }
  }

  /** Filtering keeps order: it distributes over concatenation. */
  lemma {:induction false} FilterAppend<T>(a: seq<T>, b: seq<T>, p: T -> bool)
    ensures Filter(a + b, p) == Filter(a, p) + Filter(b, p)
    decreases |a|
  {
    if a == [] {
      assert a + b == b;
    } else {
      var head := if p(a[0]) then [a[0]] else [];
      assert (a + b)[0] == a[0] && (a + b)[1..] == a[1..] + b;
      FilterAppend(a[1..], b, p);
      calc {
        Filter(a + b, p);
        head + Filter(a[1..] + b, p);
        head + (Filter(a[1..], p) + Filter(b, p));
        (head + Filter(a[1..], p)) + Filter(b, p);
      }
    }
  }

  predicate IsComputeNode(w: WorkerNode) {
    w.workerType == ComputeNode
  }

  /** A worker without properties is neither serving nor streaming. */
  predicate IsServing(w: WorkerNode) {
    w.property.Some? && w.property.value.isServing
  }

  predicate IsStreaming(w: WorkerNode) {
    w.property.Some? && w.property.value.isStreaming
  }

  /** `list_worker_nodes`: the compute nodes, in stored order. */
  function ComputeNodes(ws: seq<WorkerNode>): seq<WorkerNode> {
    Filter(ws, IsComputeNode)
  }

  /** `list_serving_worker_nodes`. */
  function ServingNodes(ws: seq<WorkerNode>): seq<WorkerNode> {
    Filter(ComputeNodes(ws), IsServing)
  }

  /** `list_streaming_worker_nodes`. */
  function StreamingNodes(ws: seq<WorkerNode>): seq<WorkerNode> {
    Filter(ComputeNodes(ws), IsStreaming)
  }

  /** The three lists hold exactly the compute nodes, the serving compute
      nodes and the streaming compute nodes; a node without properties is in
      neither of the last two. */
  lemma NodeListsSpec(ws: seq<WorkerNode>)
    ensures forall w :: w in ComputeNodes(ws) <==> w in ws && IsComputeNode(w)
    ensures forall w :: w in ServingNodes(ws) <==> w in ws && IsComputeNode(w) && w.property.Some? && w.property.value.isServing
    ensures forall w :: w in StreamingNodes(ws) <==> w in ws && IsComputeNode(w) && w.property.Some? && w.property.value.isStreaming
  {
    FilterMembers(ws, IsComputeNode);
    FilterMembers(ComputeNodes(ws), IsServing);
    FilterMembers(ComputeNodes(ws), IsStreaming);
  }

  // ---------------------------------------------------------------------
  // Parallel units to workers

  function AddUnits(m: map<nat, WorkerNode>, units: seq<nat>, w: WorkerNode): map<nat, WorkerNode>
    decreases |units|
  {
    if units == [] then m else AddUnits(m[units[0] := w], units[1..], w)
  }

  /** Which worker owns each parallel unit, built node by node (a later node
      listing the same unit wins). */
  function PuToWorker(ws: seq<WorkerNode>): map<nat, WorkerNode>
    decreases |ws|
  {
    if ws == [] then map[] else AddUnits(PuToWorker(ws[..|ws| - 1]), ws[|ws| - 1].parallelUnits, ws[|ws| - 1])
  }

  lemma {:induction false} AddUnitsSpec(m: map<nat, WorkerNode>, units: seq<nat>, w: WorkerNode)
    ensures var r := AddUnits(m, units, w);
      && (forall p :: p in r <==> p in m || p in units)
      && (forall p | p in r :: r[p] == (if p in units then w else m[p]))
    decreases |units|
  {
    if units != [] {
      AddUnitsSpec(m[units[0] := w], units[1..], w);
      assert forall p :: p in m[units[0] := w] <==> p in m || p == units[0];
      assert forall p :: p in units <==> p == units[0] || p in units[1..];
    }
  }

  /** Every parallel unit of a node is mapped, only those are, and each is
      mapped to a node in the list that owns it. */
  lemma {:induction false} PuToWorkerSpec(ws: seq<WorkerNode>)
    ensures forall p :: p in PuToWorker(ws) <==> exists w | w in ws :: p in w.parallelUnits
    ensures forall p | p in PuToWorker(ws) :: PuToWorker(ws)[p] in ws && p in PuToWorker(ws)[p].parallelUnits
    decreases |ws|
  {
    if ws != [] {
      var init := ws[..|ws| - 1];
      var last := ws[|ws| - 1];
      PuToWorkerSpec(init);
      AddUnitsSpec(PuToWorker(init), last.parallelUnits, last);
      assert forall w | w in ws :: w in init || w == last;
      assert forall w | w in init :: w in ws;
    }
  }

  /** A parallel unit listed by several nodes goes to the last of them. */
  lemma {:induction false} PuToWorkerLastWins(ws: seq<WorkerNode>, p: nat, i: nat)
    requires i < |ws| && p in ws[i].parallelUnits
    requires forall j | i < j < |ws| :: p !in ws[j].parallelUnits
    ensures p in PuToWorker(ws) && PuToWorker(ws)[p] == ws[i]
    decreases |ws|
  {
    var init := ws[..|ws| - 1];
    var last := ws[|ws| - 1];
    AddUnitsSpec(PuToWorker(init), last.parallelUnits, last);
    if i < |ws| - 1 {
      assert init[i] == ws[i];
      forall j | i < j < |init| ensures p !in init[j].parallelUnits {
        assert init[j] == ws[j];
      }
      PuToWorkerLastWins(init, p, i);
    }
  }

  // ---------------------------------------------------------------------
  // The manager

  /** The ids listed in `s`. */
  function Listed(s: seq<nat>): set<nat> {
    set x | x in s
  }

  class WorkerNodeManager {
    var workerNodes: seq<WorkerNode>
    /** A cache that should agree with `workerNodes`. */
    var puToWorker: map<nat, WorkerNode>
    var streamingMapping: map<nat, ParallelUnitMapping>
    var servingMapping: map<nat, ParallelUnitMapping>
    /** Workers temporarily hidden from serving. */
    var workerNodeMask: set<nat>

    /** The parallel-unit cache agrees with the worker list. */
    predicate Consistent()
      reads this
    {
      puToWorker == PuToWorker(workerNodes)
    }

    /** `new`: no workers, no mappings, nothing masked. */
    constructor ()
      ensures workerNodes == [] && streamingMapping == map[] && servingMapping == map[] && workerNodeMask == {}
      ensures Consistent()
    {
      workerNodes, puToWorker := [], map[];
      streamingMapping, servingMapping, workerNodeMask := map[], map[], {};
    }

    /** `mock`: the given workers and their parallel units. */
    constructor Mock(nodes: seq<WorkerNode>)
      ensures workerNodes == nodes && streamingMapping == map[] && servingMapping == map[] && workerNodeMask == {}
      ensures Consistent()
    {
      workerNodes, puToWorker := nodes, PuToWorker(nodes);
      streamingMapping, servingMapping, workerNodeMask := map[], map[], {};
    }

    /** `add_worker_node`: a node with a known id replaces the first node
        with that id and returns at once, leaving the parallel-unit cache as
        it was; a new node is appended and the cache rebuilt. */
    method AddWorkerNode(node: WorkerNode)
      modifies this
      ensures (exists i | 0 <= i < |old(workerNodes)| :: old(workerNodes)[i].id == node.id) ==>
        && |workerNodes| == |old(workerNodes)|
        && puToWorker == old(puToWorker)
        && exists i | 0 <= i < |old(workerNodes)| ::
             && old(workerNodes)[i].id == node.id
             && (forall j | 0 <= j < i :: old(workerNodes)[j].id != node.id)
             && workerNodes == old(workerNodes)[i := node]
      ensures (forall i | 0 <= i < |old(workerNodes)| :: old(workerNodes)[i].id != node.id) ==>
        workerNodes == old(workerNodes) + [node] && Consistent()
      ensures streamingMapping == old(streamingMapping) && servingMapping == old(servingMapping)
      ensures workerNodeMask == old(workerNodeMask)
    {
      var i := 0;
      while i < |workerNodes|
        invariant 0 <= i <= |workerNodes| && workerNodes == old(workerNodes) && puToWorker == old(puToWorker)
        invariant forall j | 0 <= j < i :: workerNodes[j].id != node.id
        invariant streamingMapping == old(streamingMapping) && servingMapping == old(servingMapping)
        invariant workerNodeMask == old(workerNodeMask)
      {
        if workerNodes[i].id == node.id {
          workerNodes := workerNodes[i := node];
          return;
        }
        i := i + 1;
      }
      workerNodes := workerNodes + [node];
      puToWorker := PuToWorker(workerNodes);
    }

    /** `add_worker_node` with the cache rebuilt on both paths, so that it
        always agrees with the worker list. */
    method AddWorkerNodeRebuilt(node: WorkerNode)
      modifies this
      ensures (exists i | 0 <= i < |old(workerNodes)| :: old(workerNodes)[i].id == node.id) ==>
        exists i | 0 <= i < |old(workerNodes)| :: old(workerNodes)[i].id == node.id && workerNodes == old(workerNodes)[i := node]
      ensures (forall i | 0 <= i < |old(workerNodes)| :: old(workerNodes)[i].id != node.id) ==>
        workerNodes == old(workerNodes) + [node]
      ensures Consistent()
      ensures streamingMapping == old(streamingMapping) && servingMapping == old(servingMapping)
      ensures workerNodeMask == old(workerNodeMask)
    {
      var i := 0;
      while i < |workerNodes|
        invariant 0 <= i <= |workerNodes| && workerNodes == old(workerNodes)
        invariant forall j | 0 <= j < i :: workerNodes[j].id != node.id
        invariant streamingMapping == old(streamingMapping) && servingMapping == old(servingMapping)
        invariant workerNodeMask == old(workerNodeMask)
      {
        if workerNodes[i].id == node.id {
          workerNodes := workerNodes[i := node];
          puToWorker := PuToWorker(workerNodes);
          return;
        }
        i := i + 1;
      }
      workerNodes := workerNodes + [node];
      puToWorker := PuToWorker(workerNodes);
    }

    /** `remove_worker_node`: every node with that id goes, the others stay
        in order, and the cache is rebuilt. */
    method RemoveWorkerNode(node: WorkerNode)
      modifies this
      ensures workerNodes == Filter(old(workerNodes), (w: WorkerNode) => w.id != node.id)
      ensures Consistent()
      ensures streamingMapping == old(streamingMapping) && servingMapping == old(servingMapping)
      ensures workerNodeMask == old(workerNodeMask)
    {
      workerNodes := Filter(workerNodes, (w: WorkerNode) => w.id != node.id);
      puToWorker := PuToWorker(workerNodes);
    }

    /** `refresh`: workers and both mappings replaced wholesale. */
    method Refresh(nodes: seq<WorkerNode>, streaming: map<nat, ParallelUnitMapping>, serving: map<nat, ParallelUnitMapping>)
      modifies this
      ensures workerNodes == nodes && streamingMapping == streaming && servingMapping == serving
      ensures Consistent() && workerNodeMask == old(workerNodeMask)
    {
      workerNodes := nodes;
      puToWorker := PuToWorker(nodes);
      streamingMapping, servingMapping := streaming, serving;
    }

    /** `get_workers_by_parallel_unit_ids`: no ids is an error, as is any id
        with no worker; otherwise one worker per id, in order. */
    method GetWorkersByParallelUnitIds(ids: seq<nat>) returns (r: Result<seq<WorkerNode>, string>)
      ensures r.Failure? <==> ids == [] || exists p | p in ids :: p !in puToWorker
      ensures r.Success? ==> |r.value| == |ids| && forall i | 0 <= i < |ids| :: r.value[i] == puToWorker[ids[i]]
    {
      if ids == [] {
        return Failure(EMPTY_WORKER_NODES);
      }
      var workers: seq<WorkerNode> := [];
      var i := 0;
      while i < |ids|
        invariant 0 <= i <= |ids| && |workers| == i
        invariant forall j | 0 <= j < i :: ids[j] in puToWorker && workers[j] == puToWorker[ids[j]]
      {
        if ids[i] !in puToWorker {
          return Failure(NO_WORKER_FOR_UNIT);
        }
        workers := workers + [puToWorker[ids[i]]];
        i := i + 1;
      }
      r := Success(workers);
    }

    method GetStreamingFragmentMapping(fragmentId: nat) returns (r: Result<ParallelUnitMapping, string>)
      ensures r.Success? <==> fragmentId in streamingMapping
      ensures r.Success? ==> r.value == streamingMapping[fragmentId]
    {
      if fragmentId in streamingMapping {
        r := Success(streamingMapping[fragmentId]);
      } else {
        r := Failure(STREAMING_VNODE_MAPPING_NOT_FOUND);
      }
    }

    /** `insert_streaming_fragment_mapping`: a panic when the fragment
        already has a mapping. */
    method InsertStreamingFragmentMapping(fragmentId: nat, mapping: ParallelUnitMapping) returns (r: Result<(), string>)
      modifies this
      ensures r.Success? <==> fragmentId !in old(streamingMapping)
      ensures streamingMapping == if r.Success? then old(streamingMapping)[fragmentId := mapping] else old(streamingMapping)
      ensures workerNodes == old(workerNodes) && puToWorker == old(puToWorker)
      ensures servingMapping == old(servingMapping) && workerNodeMask == old(workerNodeMask)
    {
      if fragmentId in streamingMapping {
        return Failure(FRAGMENT_MAPPING_ALREADY_PRESENT);
      }
      streamingMapping := streamingMapping[fragmentId := mapping];
      r := Success(());
    }

    /** `update_streaming_fragment_mapping`: the mapping is inserted first,
        and only then is it a panic when the fragment had no mapping before. */
    method UpdateStreamingFragmentMapping(fragmentId: nat, mapping: ParallelUnitMapping) returns (r: Result<(), string>)
      modifies this
      ensures r.Success? <==> fragmentId in old(streamingMapping)
      ensures streamingMapping == old(streamingMapping)[fragmentId := mapping]
      ensures workerNodes == old(workerNodes) && puToWorker == old(puToWorker)
      ensures servingMapping == old(servingMapping) && workerNodeMask == old(workerNodeMask)
    {
      var present := fragmentId in streamingMapping;
      streamingMapping := streamingMapping[fragmentId := mapping];
      if !present {
        return Failure(FRAGMENT_MAPPING_ABSENT);
      }
      r := Success(());
    }

    /** `remove_streaming_fragment_mapping`: a panic when the fragment has no
        mapping. */
    method RemoveStreamingFragmentMapping(fragmentId: nat) returns (r: Result<(), string>)
      modifies this
      ensures r.Success? <==> fragmentId in old(streamingMapping)
      ensures streamingMapping == old(streamingMapping) - {fragmentId}
      ensures workerNodes == old(workerNodes) && puToWorker == old(puToWorker)
      ensures servingMapping == old(servingMapping) && workerNodeMask == old(workerNodeMask)
    {
      if fragmentId !in streamingMapping {
        return Failure(FRAGMENT_MAPPING_ABSENT);
      }
      streamingMapping := streamingMapping - {fragmentId};
      r := Success(());
    }

    /** `get_serving_fragment_mapping`. */
    method ServingFragmentMapping(fragmentId: nat) returns (r: Result<ParallelUnitMapping, string>)
      ensures r.Success? <==> fragmentId in servingMapping
      ensures r.Success? ==> r.value == servingMapping[fragmentId]
    {
      if fragmentId in servingMapping {
        r := Success(servingMapping[fragmentId]);
      } else {
        r := Failure(SERVING_VNODE_MAPPING_NOT_FOUND);
      }
    }

    method SetServingFragmentMapping(mappings: map<nat, ParallelUnitMapping>)
      modifies this
      ensures servingMapping == mappings
      ensures workerNodes == old(workerNodes) && puToWorker == old(puToWorker)
      ensures streamingMapping == old(streamingMapping) && workerNodeMask == old(workerNodeMask)
    {
      servingMapping := mappings;
    }

    /** `upsert_serving_fragment_mapping`: every given entry overwrites or
        adds; the fragments not given keep theirs. */
    method UpsertServingFragmentMapping(mappings: map<nat, ParallelUnitMapping>)
      modifies this
      ensures servingMapping.Keys == old(servingMapping).Keys + mappings.Keys
      ensures forall f | f in servingMapping :: servingMapping[f] == if f in mappings then mappings[f] else old(servingMapping)[f]
      ensures workerNodes == old(workerNodes) && puToWorker == old(puToWorker)
      ensures streamingMapping == old(streamingMapping) && workerNodeMask == old(workerNodeMask)
    {
      servingMapping := servingMapping + mappings;
    }

    /** `remove_serving_fragment_mapping`: the listed fragments lose their
        mapping; absent ones are ignored. */
    method RemoveServingFragmentMapping(fragmentIds: seq<nat>)
      modifies this
      ensures servingMapping == old(servingMapping) - Listed(fragmentIds)
      ensures workerNodes == old(workerNodes) && puToWorker == old(puToWorker)
      ensures streamingMapping == old(streamingMapping) && workerNodeMask == old(workerNodeMask)
    {
      var i := 0;
      while i < |fragmentIds|
        invariant 0 <= i <= |fragmentIds|
        invariant servingMapping == old(servingMapping) - Listed(fragmentIds[..i])
        invariant workerNodes == old(workerNodes) && puToWorker == old(puToWorker)
        invariant streamingMapping == old(streamingMapping) && workerNodeMask == old(workerNodeMask)
      {
        assert Listed(fragmentIds[..i + 1]) == Listed(fragmentIds[..i]) + {fragmentIds[i]} by {
          assert fragmentIds[..i + 1] == fragmentIds[..i] + [fragmentIds[i]];
        }
        servingMapping := servingMapping - {fragmentIds[i]};
        i := i + 1;
      }
      assert fragmentIds[..i] == fragmentIds;
    }

    /** `mask_worker_node`: the worker is hidden (its later unmasking by a
        timer is not part of this model). */
    method MaskWorkerNode(workerId: nat)
      modifies this
      ensures workerNodeMask == old(workerNodeMask) + {workerId}
      ensures workerNodes == old(workerNodes) && puToWorker == old(puToWorker)
      ensures streamingMapping == old(streamingMapping) && servingMapping == old(servingMapping)
    {
      if workerId in workerNodeMask {
        return;
      }
      workerNodeMask := workerNodeMask + {workerId};
    }
  }

  /** As written, updating a known worker can leave the cache behind: a
      worker that moves from parallel unit 7 to 8 is still found for 7, and
      not for 8. */
  lemma StaleCacheAfterUpdate()
    ensures var before := [WorkerNode(1, ComputeNode, [7], None)];
      var after := before[0 := WorkerNode(1, ComputeNode, [8], None)];
      && 7 in PuToWorker(before) && 8 !in PuToWorker(before)
      && 8 in PuToWorker(after) && PuToWorker(before) != PuToWorker(after)
  {
    var before := [WorkerNode(1, ComputeNode, [7], None)];
    var after := before[0 := WorkerNode(1, ComputeNode, [8], None)];
    assert before[..0] == [] && after[..0] == [];
    AddUnitsSpec(map[], [7], before[0]);
    AddUnitsSpec(map[], [8], after[0]);
  }

  // ---------------------------------------------------------------------
  // The selector

  /** `apply_worker_node_mask`: the masked workers are dropped, unless that
      would drop them all, in which case the list is kept as it is. */
  function ApplyWorkerNodeMask(origin: seq<WorkerNode>, mask: set<nat>): seq<WorkerNode> {
    if forall w | w in origin :: w.id in mask then origin
    else Unmasked(origin, mask)
  }

  /** The workers whose id is not masked, in order. */
  function Unmasked(ws: seq<WorkerNode>, mask: set<nat>): seq<WorkerNode>
    decreases |ws|
  {
    if ws == [] then [] else (if ws[0].id in mask then [] else [ws[0]]) + Unmasked(ws[1..], mask)
  }

  lemma {:induction false} UnmaskedMembers(ws: seq<WorkerNode>, mask: set<nat>)
    ensures forall w :: w in Unmasked(ws, mask) <==> w in ws && w.id !in mask
    ensures mask == {} ==> Unmasked(ws, mask) == ws
    decreases |ws|
  {
    if ws != [] {
      UnmaskedMembers(ws[1..], mask);
      assert forall w | w in ws :: w == ws[0] || w in ws[1..];
    }
  }

  /** Masking never empties a non-empty list; when some worker is unmasked
      it keeps exactly the unmasked workers, in order. */
  lemma ApplyWorkerNodeMaskSpec(origin: seq<WorkerNode>, mask: set<nat>)
    ensures |ApplyWorkerNodeMask(origin, mask)| == 0 <==> |origin| == 0
    ensures (forall w | w in origin :: w.id in mask) ==> ApplyWorkerNodeMask(origin, mask) == origin
    ensures (exists w | w in origin :: w.id !in mask) ==>
      forall w :: w in ApplyWorkerNodeMask(origin, mask) <==> w in origin && w.id !in mask
    ensures forall w | w in ApplyWorkerNodeMask(origin, mask) :: w in origin
  {
    UnmaskedMembers(origin, mask);
    if exists w | w in origin :: w.id !in mask {
      var w :| w in origin && w.id !in mask;
      assert w in ApplyWorkerNodeMask(origin, mask);
    }
  }

  /** The workers a query may run on: the streaming workers with barrier
      reads, else the serving workers after masking. */
  function Candidates(ws: seq<WorkerNode>, mask: set<nat>, enableBarrierRead: bool): seq<WorkerNode> {
    if enableBarrierRead then StreamingNodes(ws) else ApplyWorkerNodeMask(ServingNodes(ws), mask)
  }

  /** `next_random_worker`, with the random draw as `draw`: an error only
      when there is no candidate, otherwise one of them. */
  function NextRandomWorker(ws: seq<WorkerNode>, mask: set<nat>, enableBarrierRead: bool, draw: nat): (r: Result<WorkerNode, string>)
    ensures r.Failure? <==> Candidates(ws, mask, enableBarrierRead) == []
    ensures r.Success? ==> r.value in Candidates(ws, mask, enableBarrierRead)
  {
    var c := Candidates(ws, mask, enableBarrierRead);
    if c == [] then Failure(EMPTY_WORKER_NODES) else Success(c[draw % |c|])
  }

  /** A worker drawn for a query is a live compute node: streaming under
      barrier reads, serving otherwise. */
  lemma NextRandomWorkerIsLive(ws: seq<WorkerNode>, mask: set<nat>, enableBarrierRead: bool, draw: nat)
    requires NextRandomWorker(ws, mask, enableBarrierRead, draw).Success?
    ensures var w := NextRandomWorker(ws, mask, enableBarrierRead, draw).value;
      w in ws && IsComputeNode(w) && (if enableBarrierRead then IsStreaming(w) else IsServing(w))
  {
    NodeListsSpec(ws);
    ApplyWorkerNodeMaskSpec(ServingNodes(ws), mask);
  }

  /** `worker_node_count`. */
  function WorkerNodeCount(ws: seq<WorkerNode>, mask: set<nat>, enableBarrierRead: bool): nat {
    |Candidates(ws, mask, enableBarrierRead)|
  }

  function SumParallelUnits(ws: seq<WorkerNode>): nat
    decreases |ws|
  {
    if ws == [] then 0 else |ws[0].parallelUnits| + SumParallelUnits(ws[1..])
  }

  /** `schedule_unit_count`: the parallel units of the candidates. */
  function ScheduleUnitCount(ws: seq<WorkerNode>, mask: set<nat>, enableBarrierRead: bool): nat {
    SumParallelUnits(Candidates(ws, mask, enableBarrierRead))
  }

  /** The parallel units of a list of workers add up to nothing exactly
      when no worker has one, and to at least one per worker when each
      has some. */
  lemma {:induction false} SumParallelUnitsSpec(ws: seq<WorkerNode>)
    ensures SumParallelUnits(ws) == 0 <==> forall w | w in ws :: w.parallelUnits == []
    ensures (forall w | w in ws :: w.parallelUnits != []) ==> SumParallelUnits(ws) >= |ws|
    decreases |ws|
  {
    if ws != [] {
      SumParallelUnitsSpec(ws[1..]);
      assert forall w | w in ws[1..] :: w in ws;
      assert forall w | w in ws :: w == ws[0] || w in ws[1..];
    }
  }

  /** `schedule_unit_count` is zero exactly when no candidate worker has a
      parallel unit, and is at least `worker_node_count` when every
      worker has one. */
  lemma ScheduleUnitCountSpec(ws: seq<WorkerNode>, mask: set<nat>, enableBarrierRead: bool)
    ensures ScheduleUnitCount(ws, mask, enableBarrierRead) == 0
        <==> forall w | w in Candidates(ws, mask, enableBarrierRead) :: w.parallelUnits == []
    ensures (forall w | w in ws :: w.parallelUnits != []) ==>
      ScheduleUnitCount(ws, mask, enableBarrierRead) >= WorkerNodeCount(ws, mask, enableBarrierRead)
  {
    var c := Candidates(ws, mask, enableBarrierRead);
    SumParallelUnitsSpec(c);
    NodeListsSpec(ws);
    ApplyWorkerNodeMaskSpec(ServingNodes(ws), mask);
    assert forall w | w in c :: w in ws;
  }

  /** Without barrier reads and with some serving worker, there are
      candidates exactly when there are serving workers; masking only ever
      shrinks the count. */
  lemma WorkerNodeCountSpec(ws: seq<WorkerNode>, mask: set<nat>)
    ensures WorkerNodeCount(ws, mask, false) == 0 <==> ServingNodes(ws) == []
    ensures WorkerNodeCount(ws, mask, false) <= |ServingNodes(ws)|
    ensures WorkerNodeCount(ws, {}, false) == |ServingNodes(ws)|
  {
    ApplyWorkerNodeMaskSpec(ServingNodes(ws), mask);
    UnmaskedLength(ServingNodes(ws), mask);
    UnmaskedMembers(ServingNodes(ws), {});
  }

  lemma {:induction false} UnmaskedLength(ws: seq<WorkerNode>, mask: set<nat>)
    ensures |Unmasked(ws, mask)| <= |ws|
    decreases |ws|
  {
    if ws != [] {
      UnmaskedLength(ws[1..], mask);
    }
  }
}
