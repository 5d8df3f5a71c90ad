/**
 * The begin phase (packages/react-reconciler/src/beginWork.ts): for a host
 * root or host component, reconcile the new children against the current
 * tree and return the new first child.
 */
module BeginWorks {
  import opened Wrappers
  import opened ReactTypes
  import opened Lanes
  import opened FiberFlags
  import opened WorkTags
  import opened UpdateQueues
  import opened Fibers
  import opened ChildFibers

  /**
   * How deeply `props.children.props.children…` nests: every fiber the begin
   * phase creates below a host component has pending props of a smaller
   * depth, which bounds the descent of the work loop.
   */
  function Depth(pendingProps: Value): nat {
    if pendingProps.Obj? && "children" in pendingProps.fields then
      var c := pendingProps.fields["children"];
      1 + (if c.Obj? && "props" in c.fields then Depth(c.fields["props"]) else 0)
    else 0
  }

  /** The child of the current fiber: what `reconcileChildren` diffs against. */
  function CurrentChild(nodes: map<FiberId, Fiber>, wip: FiberId): Option<FiberId>
    requires wip in nodes
  {
    var alt := nodes[wip].alternate;
    if alt.Some? && alt.value in nodes then nodes[alt.value].child else None
  }

  /** The update queue `updateHostRoot` empties, as a frame. */
  ghost function RootQueue(nodes: map<FiberId, Fiber>, wip: FiberId): set<object>
  {
    if wip in nodes && nodes[wip].tag == HostRoot && nodes[wip].updateQueue != null
    then {nodes[wip].updateQueue} else {}
  }

  /** The current fiber's child lies below `wip` in a valid arena. */
  lemma CurrentChildAbove(heap: FiberHeap, wip: FiberId) returns (cc: Option<FiberId>)
    requires heap.Valid() && wip in heap.nodes
    ensures cc == CurrentChild(heap.nodes, wip)
    ensures cc.Some? ==> cc.value in heap.rank && heap.rank[cc.value] > heap.rank[wip]
  {
    cc := CurrentChild(heap.nodes, wip);
    assert NodeOk(heap.nodes, heap.rank, heap.maxRank, heap.nextId, heap.roots, wip);
    if heap.nodes[wip].alternate.Some? {
      assert NodeOk(heap.nodes, heap.rank, heap.maxRank, heap.nextId, heap.roots, heap.nodes[wip].alternate.value);
    }
  }

  /** The update queue of a host root, when it has one, is a well-formed ring. */
  ghost predicate RootQueueOk(nodes: map<FiberId, Fiber>, wip: FiberId)
    reads RootQueue(nodes, wip)
    reads if wip in nodes && nodes[wip].tag == HostRoot && nodes[wip].updateQueue != null
          then nodes[wip].updateQueue.ring else []
  {
    wip in nodes && nodes[wip].tag == HostRoot && nodes[wip].updateQueue != null ==> nodes[wip].updateQueue.Valid()
  }

  /** `wip.child = child`, for a child of a higher rank that is no host root. */
  method SetChild(heap: FiberHeap, wip: FiberId, child: Option<FiberId>)
    requires heap.Valid() && wip in heap.nodes
    requires child.Some? ==>
      child.value in heap.nodes && heap.rank[child.value] > heap.rank[wip] && heap.nodes[child.value].tag != HostRoot
    modifies heap
    ensures heap.nodes == old(heap.nodes)[wip := old(heap.nodes[wip]).(child := child)]
    ensures heap.Valid() && heap.SameShape()
  {
    assert NodeOk(heap.nodes, heap.rank, heap.maxRank, heap.nextId, heap.roots, wip);
    heap.Set(wip, heap.nodes[wip].(child := child));
  }

  /** The child `reconcileChildren` links below `wip` for the new `children`. */
  ghost predicate NewChild(nodes: map<FiberId, Fiber>, wip: FiberId, children: Value, child: FiberId) {
    && child in nodes && nodes[child].ret == Some(wip) && nodes[child].tag != HostRoot
    && nodes[child].pendingProps ==
       (if IsElementChild(children) then GetOptional(children, "props") else TextProps(children))
  }

  /** The reconciler call of `reconcileChildren`, before its result is stored in `wip.child`. */
  method ReconcileAgainstCurrent(heap: FiberHeap, wip: FiberId, children: Value) returns (child: Option<FiberId>)
    requires heap.Valid() && wip in heap.nodes
    modifies heap
    ensures heap.Valid() && heap.Grows()
    ensures ReconciledChildren(old(heap.nodes), old(heap.nextId), old(heap.nodes[wip]).alternate.Some?, wip,
                               CurrentChild(old(heap.nodes), wip), children, child, heap.nodes)
    ensures child.Some? ==> NewChild(heap.nodes, wip, children, child.value) && heap.rank[child.value] > heap.rank[wip]
  {
    var f := heap.nodes[wip];
    assert NodeOk(heap.nodes, heap.rank, heap.maxRank, heap.nextId, heap.roots, wip);
    ghost var nodes0 := heap.nodes;
    ghost var cf := CurrentChild(nodes0, wip);
    if f.alternate.Some? {
      var current := f.alternate.value;
      assert NodeOk(heap.nodes, heap.rank, heap.maxRank, heap.nextId, heap.roots, current);
      if cf.Some? {
        assert NodeOk(heap.nodes, heap.rank, heap.maxRank, heap.nextId, heap.roots, cf.value);
      }
      child := ReconcileChildFibers(heap, true, wip, heap.nodes[current].child, children);
    } else {
      child := ReconcileChildFibers(heap, false, wip, None, children);
    }
    if child.Some? {
      ReconciledChildRecord(nodes0, old(heap.nextId), f.alternate.Some?, wip, cf, children, child, heap.nodes);
    }
  }

  /**
   * `reconcileChildren(wip, children)`: with an alternate, the tracking
   * reconciler against the current fiber's child; without one, the other
   * reconciler against null. The result becomes `wip.child`; `reconciled` is
   * the arena just before that assignment.
   */
  method ReconcileChildren(heap: FiberHeap, wip: FiberId, children: Value)
    returns (child: Option<FiberId>, ghost reconciled: map<FiberId, Fiber>)
    requires heap.Valid() && wip in heap.nodes
    modifies heap
    ensures heap.Valid() && heap.Grows()
    ensures ReconciledChildren(old(heap.nodes), old(heap.nextId), old(heap.nodes[wip]).alternate.Some?, wip,
                               CurrentChild(old(heap.nodes), wip), children, child, reconciled)
    ensures wip in reconciled && heap.nodes == reconciled[wip := reconciled[wip].(child := child)]
    ensures child.Some? ==> NewChild(heap.nodes, wip, children, child.value) && heap.rank[child.value] > heap.rank[wip]
  {
    child := ReconcileAgainstCurrent(heap, wip, children);
    reconciled := heap.nodes;
    ghost var rank1 := heap.rank;
    SetChild(heap, wip, child);
    ExtendsByUpdate(reconciled, rank1, heap.nextId, heap.roots, wip, heap.nodes[wip]);
    ExtendsTrans(old(heap.nodes), old(heap.rank), old(heap.nextId), old(heap.roots), reconciled, rank1, heap.nextId,
                 heap.roots, heap.nodes, heap.rank, heap.nextId, heap.roots);
  }

  /**
   * The queue steps of `updateHostRoot`: `shared.pending` is read and set to
   * null, and the ring read is processed on `baseState` without a render lane.
   */
  method ProcessRootQueue(queue: UpdateQueue<Value>, baseState: Value) returns (memoizedState: Value)
    requires queue.Valid()
    modifies queue
    ensures queue.pending == null && queue.ring == [] && queue.dispatch == old(queue.dispatch)
    ensures memoizedState == NewState(baseState, old(Records(queue.ring)), None)
  {
    var pending := queue.pending;
    ghost var ring := queue.ring;
    ghost var records := Records(ring);
    queue.pending := null;
    queue.ring := [];
    assert Records(ring) == records;
    var newBaseState, baseQueue;
    ghost var baseRing;
    memoizedState, newBaseState, baseQueue, baseRing := ProcessUpdateQueue(baseState, pending, None, ring);
  }

  /**
   * `updateHostRoot(wip)`: takes the pending ring off the root's queue,
   * processes it on `memoizedState` without a render lane, stores the
   * result and reconciles it as the children. Reading `shared` of a null
   * queue is a TypeError. `processed` is the arena after the state is stored.
   */
  method UpdateHostRoot(heap: FiberHeap, wip: FiberId)
    returns (r: Result<Option<FiberId>>, ghost processed: map<FiberId, Fiber>, ghost reconciled: map<FiberId, Fiber>)
    requires heap.Valid() && wip in heap.nodes && heap.nodes[wip].tag == HostRoot && RootQueueOk(heap.nodes, wip)
    modifies heap, RootQueue(heap.nodes, wip)
    ensures heap.Valid() && heap.Grows() && wip in processed
    ensures r.Throw? <==> old(heap.nodes[wip].updateQueue) == null
    ensures r.Throw? ==> heap.nodes == old(heap.nodes)
    ensures r.Ok? ==>
      var q := old(heap.nodes[wip].updateQueue);
      var f := old(heap.nodes[wip]);
      && q.pending == null && q.ring == []
      && processed == old(heap.nodes)[wip := f.(memoizedState := NewState(f.memoizedState, old(Records(q.ring)), None))]
      && ReconciledChildren(processed, old(heap.nextId), f.alternate.Some?, wip, CurrentChild(processed, wip),
                            processed[wip].memoizedState, r.value, reconciled)
      && wip in reconciled && heap.nodes == reconciled[wip := reconciled[wip].(child := r.value)]
    ensures r.Ok? && r.value.Some? ==>
      NewChild(heap.nodes, wip, processed[wip].memoizedState, r.value.value) && heap.rank[r.value.value] > heap.rank[wip]
    ensures ChangesBelow(old(heap.nodes), heap.nodes, heap.rank, wip)
  {
    ghost var cc := CurrentChildAbove(heap, wip);
    var f := heap.nodes[wip];
    var baseState := f.memoizedState;
    var queue := f.updateQueue;
    processed := heap.nodes;
    reconciled := heap.nodes;
    if queue == null {
      return Throw("TypeError: cannot read properties of null (reading 'shared')"), processed, reconciled;
    }
    var memoizedState := ProcessRootQueue(queue, baseState);
    heap.Update(wip, f.(memoizedState := memoizedState));
    processed := heap.nodes;
    ghost var rank1 := heap.rank;
    var child;
    child, reconciled := ReconcileChildren(heap, wip, memoizedState);
    ExtendsByUpdate(old(heap.nodes), old(heap.rank), old(heap.nextId), old(heap.roots), wip, processed[wip]);
    ExtendsTrans(old(heap.nodes), old(heap.rank), old(heap.nextId), old(heap.roots), processed, rank1, heap.nextId,
                 heap.roots, heap.nodes, heap.rank, heap.nextId, heap.roots);
    RootReconciledBelow(old(heap.nodes), processed, reconciled, heap.nodes, old(heap.nextId), wip, cc, memoizedState,
                        child, heap.rank);
    r := Ok(child);
  }

  /**
   * `updateHostComponent(wip)`: reconciles `pendingProps.children`; reading
   * `children` of null or undefined props is a TypeError.
   */
  method UpdateHostComponent(heap: FiberHeap, wip: FiberId) returns (r: Result<Option<FiberId>>,
                                                                     ghost reconciled: map<FiberId, Fiber>)
    requires heap.Valid() && wip in heap.nodes
    modifies heap
    ensures heap.Valid() && heap.Grows()
    ensures r.Throw? <==> Get(old(heap.nodes[wip].pendingProps), "children").Throw?
    ensures r.Throw? ==> heap.nodes == old(heap.nodes)
    ensures r.Ok? ==>
      var children := Get(old(heap.nodes[wip].pendingProps), "children").value;
      && ReconciledChildren(old(heap.nodes), old(heap.nextId), old(heap.nodes[wip]).alternate.Some?, wip,
                            CurrentChild(old(heap.nodes), wip), children, r.value, reconciled)
      && wip in reconciled && heap.nodes == reconciled[wip := reconciled[wip].(child := r.value)]
      && (r.value.Some? ==> NewChild(heap.nodes, wip, children, r.value.value) &&
                            heap.rank[r.value.value] > heap.rank[wip])
    ensures ChangesBelow(old(heap.nodes), heap.nodes, heap.rank, wip)
  {
    ghost var cc := CurrentChildAbove(heap, wip);
    reconciled := heap.nodes;
    var nextChildren := Get(heap.nodes[wip].pendingProps, "children");
    if nextChildren.Throw? {
      return Throw(nextChildren.message), reconciled;
    }
    var child;
    child, reconciled := ReconcileChildren(heap, wip, nextChildren.value);
    ReconciledBelow(old(heap.nodes), old(heap.nextId), old(heap.nodes[wip]).alternate.Some?, wip, cc,
                    nextChildren.value, child, reconciled, heap.rank);
    ChangesBelowUpdate(reconciled, heap.rank, wip, heap.nodes[wip]);
    ChangesBelowTrans(old(heap.nodes), reconciled, heap.nodes, heap.rank, wip);
    r := Ok(child);
  }

  /**
   * Reconciling the children of `wip` rewrites the record of `wip` (its
   * deletions and flags, never its links), the reused old child and the new
   * child, both of a higher rank; nothing else.
   */
  lemma ReconciledBelow(n0: map<FiberId, Fiber>, nextId0: FiberId, track: bool, wip: FiberId,
                        currentFiber: Option<FiberId>, children: Value, child: Option<FiberId>,
                        n1: map<FiberId, Fiber>, rank: map<FiberId, nat>)
    requires wip in n0 && wip in rank
    requires ReconciledChildren(n0, nextId0, track, wip, currentFiber, children, child, n1)
    requires currentFiber.Some? ==> currentFiber.value in rank && rank[currentFiber.value] > rank[wip]
    requires child.Some? ==> child.value in rank && rank[child.value] > rank[wip]
    ensures ChangesBelow(n0, n1, rank, wip)
  {
    var chain := ChildFibers.Chain(currentFiber);
    if IsElementChild(children) {
      ElementPlanReusesChain(n0, chain, children);
      DeletedKeepsLinks(track, n0[wip], ElementPlan(n0, chain, children).toDelete);
    } else if IsText(children) {
      TextPlanReusesChain(n0, chain);
      DeletedKeepsLinks(track, n0[wip], TextPlan(n0, chain).toDelete);
    } else {
      DeletedKeepsLinks(track, n0[wip], chain);
    }
  }

  /** `updateHostRoot` stores the state and reconciles: it touches `wip` and what lies below it. */
  lemma RootReconciledBelow(n0: map<FiberId, Fiber>, processed: map<FiberId, Fiber>, reconciled: map<FiberId, Fiber>,
                            n1: map<FiberId, Fiber>, nextId0: FiberId, wip: FiberId, cc: Option<FiberId>,
                            state: Value, child: Option<FiberId>, rank: map<FiberId, nat>)
    requires wip in n0 && wip in rank && cc == CurrentChild(n0, wip)
    requires processed == n0[wip := n0[wip].(memoizedState := state)]
    requires ReconciledChildren(processed, nextId0, n0[wip].alternate.Some?, wip, CurrentChild(processed, wip),
                                state, child, reconciled)
    requires wip in reconciled && n1 == reconciled[wip := reconciled[wip].(child := child)]
    requires cc.Some? ==> cc.value in rank && rank[cc.value] > rank[wip]
    requires child.Some? ==> child.value in rank && rank[child.value] > rank[wip]
    ensures ChangesBelow(n0, n1, rank, wip)
  {
    ChangesBelowUpdate(n0, rank, wip, processed[wip]);
    assert CurrentChild(processed, wip) == cc;
    ReconciledBelow(processed, nextId0, n0[wip].alternate.Some?, wip, cc, state, child, reconciled, rank);
    ChangesBelowUpdate(reconciled, rank, wip, n1[wip]);
    ChangesBelowTrans(n0, processed, reconciled, rank, wip);
    ChangesBelowTrans(n0, reconciled, n1, rank, wip);
  }

  /** Below a host component, the pending props of the new child nest less deeply. */
  lemma DepthDecreases(pendingProps: Value, children: Value)
    requires Get(pendingProps, "children") == Ok(children)
    requires IsElementChild(children) || IsText(children)
    ensures Depth(if IsElementChild(children) then GetOptional(children, "props") else TextProps(children))
            < Depth(pendingProps)
  {
    assert pendingProps.Obj? && "children" in pendingProps.fields;
  }

  /**
   * `beginWork(wip)`: the host root and host components reconcile their
   * children and return `wip.child`; every other tag returns null and
   * changes nothing.
   */
  method BeginWork(heap: FiberHeap, wip: FiberId) returns (r: Result<Option<FiberId>>)
    requires heap.Valid() && wip in heap.nodes && RootQueueOk(heap.nodes, wip)
    modifies heap, RootQueue(heap.nodes, wip)
    ensures heap.Valid() && heap.Grows()
    ensures old(heap.nodes[wip].tag) == HostRoot ==> (r.Throw? <==> old(heap.nodes[wip].updateQueue) == null)
    ensures old(heap.nodes[wip].tag) == HostComponent ==>
      (r.Throw? <==> Get(old(heap.nodes[wip].pendingProps), "children").Throw?)
    ensures old(heap.nodes[wip].tag) != HostRoot && old(heap.nodes[wip].tag) != HostComponent ==>
      r == Ok(None) && heap.nodes == old(heap.nodes)
    ensures r.Ok? && r.value.Some? ==>
      var child := r.value.value;
      && child in heap.nodes && heap.rank[child] > heap.rank[wip] && heap.nodes[wip].child == r.value
      && heap.nodes[child].ret == Some(wip) && heap.nodes[child].tag != HostRoot
      && (old(heap.nodes[wip].tag) == HostComponent ==>
            Depth(heap.nodes[child].pendingProps) < Depth(old(heap.nodes[wip].pendingProps)))
    ensures ChangesBelow(old(heap.nodes), heap.nodes, heap.rank, wip)
  {
    var tag := heap.nodes[wip].tag;
    ghost var reconciled, processed;
    if tag == HostRoot {
      r, processed, reconciled := UpdateHostRoot(heap, wip);
    } else if tag == HostComponent {
      r, reconciled := UpdateHostComponent(heap, wip);
      if r.Ok? && r.value.Some? {
        DepthDecreases(old(heap.nodes[wip].pendingProps), Get(old(heap.nodes[wip].pendingProps), "children").value);
      }
    } else {
      r := Ok(None);
    }
  }

  /**
   * `updateHostRoot` processes the ring without a render lane, so an update
   * counts only when its lane is 0: updates with SyncLane, or with no lane
   * at all, leave the root's state as it was, and one with lane 0 replaces it.
   */
  lemma RootUpdatesNeedLaneZero(baseState: Value, us: seq<Record<Value>>)
    ensures (forall j :: 0 <= j < |us| ==> us[j].lane != Some(NoLane)) ==> NewState(baseState, us, None) == baseState
    ensures us != [] && us[|us| - 1].lane == Some(NoLane) && us[|us| - 1].action.Replace?
      ==> NewState(baseState, us, None) == us[|us| - 1].action.value
  {
    forall j | 0 <= j < |us| ensures Included(None, us[j].lane) <==> us[j].lane == Some(NoLane) {
      MissingRenderLane(us[j].lane);
    }
    if forall j :: 0 <= j < |us| ==> us[j].lane != Some(NoLane) {
      NothingIncluded(baseState, us, None);
    }
  }

  /**
   * With the render lane passed on, as React's `processUpdateQueue` call
   * does, a SyncLane render includes every SyncLane update of the root, and
   * a last such update carrying a value becomes the root's state.
   */
  lemma {:induction false} RootUpdatesWithSyncLane(baseState: Value, us: seq<Record<Value>>)
    ensures forall j :: 0 <= j < |us| && us[j].lane == Some(SyncLane) ==> Included(Some(SyncLane), us[j].lane)
    ensures us != [] && us[|us| - 1].lane == Some(SyncLane) && us[|us| - 1].action.Replace?
      ==> NewState(baseState, us, Some(SyncLane)) == us[|us| - 1].action.value
  {
    SubsetBasics(SyncLane, NoLanes);
  }
}
