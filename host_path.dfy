/**
 * The walk down `child` links to the topmost host fiber, shared by
 * `appendAllChildren` (packages/react-reconciler/src/completeWork.ts) and
 * `appendPlacementNodeIntoContainer` (packages/react-reconciler/src/commitWork.ts).
 * Sibling links are always null, so "the topmost host descendants in tree
 * order" is at most one fiber: the end of this path.
 */
module HostPaths {
  import opened Wrappers
  import opened WorkTags
  import opened HostConfig
  import opened Fibers

  predicate IsHostTag(tag: WorkTag) {
    tag == HostComponent || tag == HostText
  }

  /**
   * The fibers from `id` down `child` links up to and including the first
   * host fiber or the first fiber without a child. The rank guards hold in
   * a valid arena; they only make the walk total.
   */
  ghost function HostPath(nodes: map<FiberId, Fiber>, rank: map<FiberId, nat>, bound: nat, id: FiberId)
    : (path: seq<FiberId>)
    ensures id in nodes && id in rank && rank[id] <= bound ==> path != [] && path[0] == id
    decreases if id in rank && rank[id] <= bound then bound - rank[id] + 1 else 0
  {
    if id !in nodes || id !in rank || rank[id] > bound then []
    else if IsHostTag(nodes[id].tag) then [id]
    else match nodes[id].child
      case None => [id]
      case Some(c) => if c in rank && rank[id] < rank[c] then [id] + HostPath(nodes, rank, bound, c) else [id]
  }

  /** The host fiber the walk ends at, if it ends at one. */
  ghost function HostEnd(nodes: map<FiberId, Fiber>, path: seq<FiberId>): (h: Option<FiberId>)
    ensures h.Some? ==> h.value in nodes && IsHostTag(nodes[h.value].tag)
  {
    if path != [] && path[|path| - 1] in nodes && IsHostTag(nodes[path[|path| - 1]].tag)
    then Some(path[|path| - 1]) else None
  }

  /** Two arenas with the same nodes, tags, child links and state nodes. */
  ghost predicate SameTree(n1: map<FiberId, Fiber>, n2: map<FiberId, Fiber>) {
    n1.Keys == n2.Keys &&
    forall k :: k in n1 ==> n1[k].tag == n2[k].tag && n1[k].child == n2[k].child && n1[k].stateNode == n2[k].stateNode
  }

  /** The walk and the fiber it ends at depend on tags and child links only. */
  lemma {:induction false} HostPathSameTree(n1: map<FiberId, Fiber>, n2: map<FiberId, Fiber>, rank: map<FiberId, nat>,
                                            bound: nat, id: FiberId)
    requires SameTree(n1, n2)
    ensures HostPath(n1, rank, bound, id) == HostPath(n2, rank, bound, id)
    ensures HostEnd(n1, HostPath(n1, rank, bound, id)) == HostEnd(n2, HostPath(n2, rank, bound, id))
    decreases if id in rank && rank[id] <= bound then bound - rank[id] + 1 else 0
  {
    if id in n1 && id in rank && rank[id] <= bound && !IsHostTag(n1[id].tag) && n1[id].child.Some? {
      assert n2[id].child == n1[id].child;
      var c := n1[id].child.value;
      if c in rank && rank[id] < rank[c] {
        HostPathSameTree(n1, n2, rank, bound, c);
      }
    }
  }

  /** A walk that goes on from a fiber which is no host fiber ends where the rest of it ends. */
  lemma HostEndCons(m: map<FiberId, Fiber>, id: FiberId, rest: seq<FiberId>)
    requires id in m && !IsHostTag(m[id].tag)
    ensures HostEnd(m, [id] + rest) == HostEnd(m, rest)
  {
    if rest != [] {
      assert ([id] + rest)[|[id] + rest| - 1] == rest[|rest| - 1];
    }
  }

  /** One step of the walk in a valid arena: a fiber that is no host fiber and has a child goes on to it. */
  lemma HostPathStep(heap: FiberHeap, id: FiberId)
    requires heap.Valid() && id in heap.nodes
    ensures var path := HostPath(heap.nodes, heap.rank, heap.maxRank, id);
      if IsHostTag(heap.nodes[id].tag) || heap.nodes[id].child.None? then path == [id]
      else path == [id] + HostPath(heap.nodes, heap.rank, heap.maxRank, heap.nodes[id].child.value)
  {
    assert NodeOk(heap.nodes, heap.rank, heap.maxRank, heap.nextId, heap.roots, id);
  }

  /**
   * In a valid arena the walk is the topmost host descendant's path: every
   * fiber on it but the last is no host fiber and has the next as its child,
   * and the last is a host fiber or has no child.
   */
  lemma {:induction false} HostPathShape(heap: FiberHeap, id: FiberId)
    requires heap.Valid() && id in heap.nodes
    ensures var path := HostPath(heap.nodes, heap.rank, heap.maxRank, id);
      && path != [] && path[0] == id
      && (forall i :: 0 <= i < |path| ==> path[i] in heap.nodes)
      && (forall i :: 0 <= i < |path| - 1 ==>
            !IsHostTag(heap.nodes[path[i]].tag) && heap.nodes[path[i]].child == Some(path[i + 1]))
      && (IsHostTag(heap.nodes[path[|path| - 1]].tag) || heap.nodes[path[|path| - 1]].child.None?)
    decreases heap.maxRank - heap.rank[id]
  {
    HostPathStep(heap, id);
    assert NodeOk(heap.nodes, heap.rank, heap.maxRank, heap.nextId, heap.roots, id);
    var f := heap.nodes[id];
    if !IsHostTag(f.tag) && f.child.Some? {
      HostPathShape(heap, f.child.value);
    }
  }
}
