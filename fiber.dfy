/**
 * Fiber nodes and roots (packages/react-reconciler/src/fiber.ts).
 *
 * Fibers live in an arena: `FiberHeap.nodes` maps a fiber's identity to its
 * record, and every field assignment of the source replaces one record. A
 * ghost rank orders the nodes: a `return` link points to a lower rank, a
 * `child` link to a higher one, and alternates share a rank, which is what
 * makes the link walks of the work loop and the commit terminate. In this
 * snapshot every write of `sibling` stores `null`, so `sibling` is always
 * `null` and part of the invariant.
 */
module Fibers {
  import opened Wrappers
  import opened ReactTypes
  import opened Lanes
  import opened FiberFlags
  import opened WorkTags
  import opened UpdateQueues
  import opened HostConfig

  type FiberId = nat

  /** `stateNode`: null, a host instance, or (on a host root) the `FiberRootNode`. */
  datatype StateNode = NoStateNode | Instance(handle: nat) | RootNode(root: FiberRootNode)

  /** The host value of a host fiber's `stateNode`. */
  function HostValueOf(s: StateNode): HostValue {
    match s
    case NoStateNode => NullValue
    case Instance(h) => Handle(h)
    case RootNode(r) => ContainerValue(r.container)
  }

  /** A `FiberNode`'s fields; `type` is `elementType` and `return` is `ret`. */
  datatype Fiber = Fiber(
    tag: WorkTag,
    key: Value,
    elementType: Value,
    pendingProps: Value,
    stateNode: StateNode,
    ret: Option<FiberId>,
    sibling: Option<FiberId>,
    child: Option<FiberId>,
    index: int,
    ref: Value,
    memoizedProps: Value,
    memoizedState: Value,
    alternate: Option<FiberId>,
    flags: Flags,
    subtreeFlags: Flags,
    updateQueue: UpdateQueue?<Value>,
    deletions: Option<seq<FiberId>>)

  /** `key || null`. */
  function NormalizeKey(key: Value): (k: Value)
    ensures Truthy(key) ==> k == key
    ensures !Truthy(key) ==> k == Null
  {
    if Truthy(key) then key else Null
  }

  /** The record `new FiberNode(tag, pendingProps, key)` builds. */
  function NewFiber(tag: WorkTag, pendingProps: Value, key: Value): Fiber {
    Fiber(tag, NormalizeKey(key), Null, pendingProps, NoStateNode, None, None, None, 0, Null,
          Null, Null, None, NoFlags, NoFlags, null, None)
  }

  /** The fields of a record the arena invariant ties to other nodes. */
  function Links(f: Fiber): (WorkTag, Option<FiberId>, Option<FiberId>, Option<FiberId>, Option<FiberId>, StateNode) {
    (f.tag, f.ret, f.sibling, f.child, f.alternate, f.stateNode)
  }

  /** A host root keeps no host instance and other fibers keep no root. */
  predicate StateFits(tag: WorkTag, s: StateNode) {
    if tag == HostRoot then !s.Instance? else !s.RootNode?
  }

  /** The invariant of one node of the arena. */
  ghost predicate NodeOk(nodes: map<FiberId, Fiber>, rank: map<FiberId, nat>, maxRank: nat, nextId: FiberId,
                         roots: set<FiberRootNode>, id: FiberId)
    requires id in nodes && nodes.Keys == rank.Keys
  {
    var f := nodes[id];
    && id < nextId && rank[id] <= maxRank
    && f.sibling == None
    && (f.ret.Some? ==> f.ret.value in nodes && rank[f.ret.value] < rank[id])
    && (f.child.Some? ==>
          f.child.value in nodes && rank[f.child.value] > rank[id] && nodes[f.child.value].tag != HostRoot)
    && (f.alternate.Some? ==>
          f.alternate.value in nodes && rank[f.alternate.value] == rank[id] && nodes[f.alternate.value].tag == f.tag)
    && (f.tag == HostRoot ==> f.ret == None)
    && StateFits(f.tag, f.stateNode)
    && (f.stateNode.RootNode? ==> f.stateNode.root in roots)
  }

  ghost predicate HeapOk(nodes: map<FiberId, Fiber>, rank: map<FiberId, nat>, maxRank: nat, nextId: FiberId,
                         roots: set<FiberRootNode>)
  {
    nodes.Keys == rank.Keys &&
    (forall id :: id in nodes ==> id < nextId) &&
    forall id {:trigger NodeOk(nodes, rank, maxRank, nextId, roots, id)} ::
      id in nodes ==> NodeOk(nodes, rank, maxRank, nextId, roots, id)
  }

  /** Updating a key twice keeps the second value. */
  lemma UpdateTwice<K, V>(m: map<K, V>, k: K, v: V, w: V)
    ensures m[k := v][k := w] == m[k := w]
  {
  }

  /** Updates of two different keys commute. */
  lemma UpdateSwap<K, V>(m: map<K, V>, a: K, va: V, b: K, vb: V)
    requires a != b
    ensures m[a := va][b := vb] == m[b := vb][a := va]
  {
  }

  /** Storing a key's own value changes nothing. */
  lemma UpdateSame<K, V>(m: map<K, V>, k: K)
    requires k in m
    ensures m[k := m[k]] == m
  {
  }

  /** The arena `(n1, r1, id1, roots1)` only adds nodes to `(n0, r0, id0, roots0)` and keeps tags, ranks and roots. */
  ghost predicate Extends(n0: map<FiberId, Fiber>, r0: map<FiberId, nat>, id0: FiberId, roots0: set<FiberRootNode>,
                          n1: map<FiberId, Fiber>, r1: map<FiberId, nat>, id1: FiberId, roots1: set<FiberRootNode>)
  {
    && n0.Keys <= n1.Keys
    && (forall id :: id in n0 ==> n1[id].tag == n0[id].tag)
    && (forall id :: id in r0 ==> id in r1 && r1[id] == r0[id])
    && id0 <= id1
    && roots1 == roots0
  }

  lemma ExtendsTrans(n0: map<FiberId, Fiber>, r0: map<FiberId, nat>, id0: FiberId, roots0: set<FiberRootNode>,
                     n1: map<FiberId, Fiber>, r1: map<FiberId, nat>, id1: FiberId, roots1: set<FiberRootNode>,
                     n2: map<FiberId, Fiber>, r2: map<FiberId, nat>, id2: FiberId, roots2: set<FiberRootNode>)
    requires Extends(n0, r0, id0, roots0, n1, r1, id1, roots1) && Extends(n1, r1, id1, roots1, n2, r2, id2, roots2)
    ensures Extends(n0, r0, id0, roots0, n2, r2, id2, roots2)
  {
  }

  /** Replacing a record by one with the same tag extends the arena. */
  lemma ExtendsByUpdate(n0: map<FiberId, Fiber>, r0: map<FiberId, nat>, id0: FiberId, roots0: set<FiberRootNode>,
                        k: FiberId, v: Fiber)
    requires k in n0 && v.tag == n0[k].tag
    ensures Extends(n0, r0, id0, roots0, n0[k := v], r0, id0, roots0)
  {
  }

  /** Replacing a record by one with the same tag keeps the invariant when the new record is ok. */
  lemma SetKeepsHeapOk(nodes: map<FiberId, Fiber>, rank: map<FiberId, nat>, maxRank: nat, nextId: FiberId,
                       roots: set<FiberRootNode>, id: FiberId, g: Fiber)
    requires HeapOk(nodes, rank, maxRank, nextId, roots) && id in nodes && g.tag == nodes[id].tag
    requires NodeOk(nodes[id := g], rank, maxRank, nextId, roots, id)
    ensures HeapOk(nodes[id := g], rank, maxRank, nextId, roots)
  {
    var n := nodes[id := g];
    forall y | y in n ensures NodeOk(n, rank, maxRank, nextId, roots, y) {
      if y != id {
        assert NodeOk(nodes, rank, maxRank, nextId, roots, y);
      }
    }
  }

  /** Adding a node without links keeps the invariant. */
  lemma AllocKeepsHeapOk(nodes: map<FiberId, Fiber>, rank: map<FiberId, nat>, maxRank: nat, nextId: FiberId,
                         roots: set<FiberRootNode>, f: Fiber, r: nat)
    requires HeapOk(nodes, rank, maxRank, nextId, roots)
    requires f.ret == None && f.sibling == None && f.child == None && f.alternate == None
    requires StateFits(f.tag, f.stateNode) && !f.stateNode.RootNode?
    ensures var m := if r > maxRank then r else maxRank;
      HeapOk(nodes[nextId := f], rank[nextId := r], m, nextId + 1, roots)
  {
    var m := if r > maxRank then r else maxRank;
    var n := nodes[nextId := f];
    var rk := rank[nextId := r];
    forall y | y in n ensures NodeOk(n, rk, m, nextId + 1, roots, y) {
      if y != nextId {
        assert NodeOk(nodes, rank, maxRank, nextId, roots, y);
      }
    }
  }

  /** `FiberRootNode`: the container, the current host root fiber and the scheduling fields. */
  class FiberRootNode {
    const container: nat
    var current: FiberId
    var finishedWork: Option<FiberId>
    var pendingLanes: Lanes
    var finishedLane: Lane
    /** `pendingPassiveEffects.unmount` and `.update`. */
    var pendingPassiveUnmount: seq<Value>
    var pendingPassiveUpdate: seq<Value>
    var callbackNode: Option<Value>
    var callbackPriority: Lane

    /** `new FiberRootNode(container, hostRootFiber)`, which also sets `hostRootFiber.stateNode`. */
    constructor (container: nat, hostRootFiber: FiberId, heap: FiberHeap)
      requires heap.Valid() && hostRootFiber in heap.nodes && heap.nodes[hostRootFiber].tag == HostRoot
      modifies heap
      ensures this.container == container && current == hostRootFiber && finishedWork == None
      ensures pendingLanes == NoLanes && finishedLane == NoLane
      ensures pendingPassiveUnmount == [] && pendingPassiveUpdate == []
      ensures callbackNode == None && callbackPriority == NoLane
      ensures heap.nodes == old(heap.nodes)[hostRootFiber := old(heap.nodes[hostRootFiber]).(stateNode := RootNode(this))]
      ensures heap.roots == old(heap.roots) + {this}
      ensures heap.rank == old(heap.rank) && heap.maxRank == old(heap.maxRank) && heap.nextId == old(heap.nextId)
      ensures heap.Valid()
    {
      this.container := container;
      current := hostRootFiber;
      finishedWork := None;
      pendingLanes := NoLanes;
      finishedLane := NoLane;
      pendingPassiveUnmount := [];
      pendingPassiveUpdate := [];
      callbackNode := None;
      callbackPriority := NoLane;
      new;
      heap.AttachRoot(hostRootFiber, this);
    }

    /** `markRootFinished(root, lane)` (packages/react-reconciler/src/fiberLanes.ts). */
    method MarkRootFinished(lane: Lane)
      modifies this
      ensures pendingLanes == RemoveLanes(old(pendingLanes), lane)
      ensures current == old(current) && finishedWork == old(finishedWork) && finishedLane == old(finishedLane)
      ensures callbackNode == old(callbackNode) && callbackPriority == old(callbackPriority)
      ensures pendingPassiveUnmount == old(pendingPassiveUnmount) && pendingPassiveUpdate == old(pendingPassiveUpdate)
    {
      pendingLanes := pendingLanes & !lane;
    }
  }

  /** The arena of fibers. */
  class FiberHeap {
    var nodes: map<FiberId, Fiber>
    var nextId: FiberId
    ghost var rank: map<FiberId, nat>
    ghost var maxRank: nat
    /** The roots whose `stateNode` link a host root fiber holds. */
    ghost var roots: set<FiberRootNode>

    ghost predicate Valid()
      reads this
    {
      HeapOk(nodes, rank, maxRank, nextId, roots)
    }

    /** Nodes are only added; ranks, tags and roots are kept. */
    twostate predicate Grows()
      reads this
    {
      Extends(old(nodes), old(rank), old(nextId), old(roots), nodes, rank, nextId, roots)
    }

    /** Only records changed: no node was added and ranks and roots are kept. */
    twostate predicate SameShape()
      reads this
    {
      rank == old(rank) && maxRank == old(maxRank) && nextId == old(nextId) && roots == old(roots)
    }

    constructor ()
      ensures nodes == map[] && nextId == 0 && rank == map[] && roots == {}
      ensures Valid()
    {
      nodes := map[];
      nextId := 0;
      rank := map[];
      maxRank := 0;
      roots := {};
    }

    /** One field assignment, or several, on one fiber whose tag stays. */
    method Set(id: FiberId, g: Fiber)
      requires Valid() && id in nodes && g.tag == nodes[id].tag
      requires NodeOk(nodes[id := g], rank, maxRank, nextId, roots, id)
      modifies this
      ensures nodes == old(nodes)[id := g]
      ensures rank == old(rank) && maxRank == old(maxRank) && nextId == old(nextId) && roots == old(roots)
      ensures Valid()
    {
      SetKeepsHeapOk(nodes, rank, maxRank, nextId, roots, id, g);
      nodes := nodes[id := g];
    }

    /** Assignments to fields of one fiber other than its links. */
    method Update(id: FiberId, g: Fiber)
      requires Valid() && id in nodes && Links(g) == Links(nodes[id])
      modifies this
      ensures nodes == old(nodes)[id := g]
      ensures Valid() && SameShape()
    {
      assert NodeOk(nodes, rank, maxRank, nextId, roots, id);
      SetKeepsHeapOk(nodes, rank, maxRank, nextId, roots, id, g);
      nodes := nodes[id := g];
    }

    /**
     * Allocating a new fiber object with record `f`, which has no links yet;
     * `new FiberNode(tag, pendingProps, key)` allocates `NewFiber(tag,
     * pendingProps, key)`. `r` is the new node's ghost rank.
     */
    method Alloc(f: Fiber, ghost r: nat) returns (id: FiberId)
      requires Valid()
      requires f.ret == None && f.sibling == None && f.child == None && f.alternate == None
      requires StateFits(f.tag, f.stateNode) && !f.stateNode.RootNode?
      modifies this
      ensures id == old(nextId) && nextId == id + 1 && id !in old(nodes)
      ensures nodes == old(nodes)[id := f]
      ensures rank == old(rank)[id := r] && maxRank == (if r > old(maxRank) then r else old(maxRank))
      ensures roots == old(roots)
      ensures Valid() && Grows()
    {
      AllocKeepsHeapOk(nodes, rank, maxRank, nextId, roots, f, r);
      id := nextId;
      nodes := nodes[id := f];
      rank := rank[id := r];
      maxRank := if r > maxRank then r else maxRank;
      nextId := nextId + 1;
    }

    /** `hostRootFiber.stateNode = root`. */
    method AttachRoot(id: FiberId, root: FiberRootNode)
      requires Valid() && id in nodes && nodes[id].tag == HostRoot
      modifies this
      ensures nodes == old(nodes)[id := old(nodes[id]).(stateNode := RootNode(root))]
      ensures roots == old(roots) + {root}
      ensures rank == old(rank) && maxRank == old(maxRank) && nextId == old(nextId)
      ensures Valid()
    {
      var g := nodes[id].(stateNode := RootNode(root));
      var rs := roots + {root};
      var n := nodes[id := g];
      forall y | y in n ensures NodeOk(n, rank, maxRank, nextId, rs, y) {
        assert NodeOk(nodes, rank, maxRank, nextId, roots, y);
      }
      nodes := nodes[id := g];
      roots := rs;
    }
  }

  /**
   * Every root known to the arena points to fibers of the arena: `current` to
   * a host root, and a pending `finishedWork` to a node.
   */
  ghost predicate RootsOk(heap: FiberHeap)
    reads heap, heap.roots
  {
    forall r :: r in heap.roots ==>
      r.current in heap.nodes && heap.nodes[r.current].tag == HostRoot &&
      (r.finishedWork.Some? ==> r.finishedWork.value in heap.nodes)
  }

  /** Growing the arena keeps the roots' links valid. */
  twostate lemma GrowsKeepsRootsOk(heap: FiberHeap)
    requires old(RootsOk(heap)) && heap.Grows()
    requires forall r :: r in heap.roots ==> unchanged(r)
    ensures RootsOk(heap)
  {
  }

  /** The node `createWorkInProgress` creates for `current` (record `c`) when it has no alternate. */
  function MountedAlternate(c: Fiber, current: FiberId, pendingProps: Value): Fiber {
    NewFiber(c.tag, pendingProps, c.key).(
      stateNode := c.stateNode, alternate := Some(current), elementType := c.elementType,
      updateQueue := c.updateQueue, child := c.child, memoizedProps := c.memoizedProps,
      memoizedState := c.memoizedState)
  }

  /** The alternate `w` as `createWorkInProgress` leaves it when current (record `c`) already has one. */
  function ResetAlternate(w: Fiber, c: Fiber, pendingProps: Value): Fiber {
    w.(pendingProps := pendingProps, flags := NoFlags, subtreeFlags := NoFlags, deletions := None,
       elementType := c.elementType, updateQueue := c.updateQueue, child := c.child,
       memoizedProps := c.memoizedProps, memoizedState := c.memoizedState)
  }

  /** The record `createWorkInProgress(current, pendingProps)` leaves on the work-in-progress node. */
  function WipRecord(nodes: map<FiberId, Fiber>, current: FiberId, pendingProps: Value): Fiber
    requires current in nodes
  {
    var c := nodes[current];
    if c.alternate.Some? && c.alternate.value in nodes then ResetAlternate(nodes[c.alternate.value], c, pendingProps)
    else MountedAlternate(c, current, pendingProps)
  }

  /**
   * `createWorkInProgress(current, pendingProps)`. Without an alternate a
   * new node with current's tag, key and stateNode is created and the two
   * are linked both ways; with one, that node is reused with the new props
   * and its flags, subtree flags and deletions reset. In both cases type,
   * update queue, child and memoized fields are copied from current.
   */
  method CreateWorkInProgress(heap: FiberHeap, current: FiberId, pendingProps: Value) returns (wip: FiberId)
    requires heap.Valid() && current in heap.nodes
    modifies heap
    ensures heap.Valid() && heap.Grows()
    ensures wip in heap.nodes && heap.rank[wip] == heap.rank[current]
    ensures heap.nodes[current].alternate == Some(wip)
    ensures heap.nodes == old(heap.nodes)[current := old(heap.nodes[current]).(alternate := Some(wip))]
                                         [wip := WipRecord(old(heap.nodes), current, pendingProps)]
    ensures old(heap.nodes[current]).alternate.None? ==>
      wip == old(heap.nextId) && wip !in old(heap.nodes) &&
      heap.nodes == old(heap.nodes)[current := old(heap.nodes[current]).(alternate := Some(wip))]
                                   [wip := MountedAlternate(old(heap.nodes[current]), current, pendingProps)]
    ensures old(heap.nodes[current]).alternate.Some? ==>
      wip == old(heap.nodes[current]).alternate.value && wip in old(heap.nodes) &&
      heap.nextId == old(heap.nextId) &&
      heap.nodes == old(heap.nodes)[wip := ResetAlternate(old(heap.nodes[wip]), old(heap.nodes[current]), pendingProps)]
  {
    if heap.nodes[current].alternate == None {
      wip := MountWorkInProgress(heap, current, pendingProps);
    } else {
      wip := heap.nodes[current].alternate.value;
      ResetWorkInProgress(heap, current, wip, pendingProps);
      assert old(heap.nodes)[current := old(heap.nodes[current]).(alternate := Some(wip))] == old(heap.nodes);
    }
  }

  /** Linking a fresh alternate to `current` keeps the invariant. */
  lemma MountKeepsHeapOk(nodes: map<FiberId, Fiber>, rank: map<FiberId, nat>, maxRank: nat, nextId: FiberId,
                         roots: set<FiberRootNode>, current: FiberId, pendingProps: Value)
    requires HeapOk(nodes, rank, maxRank, nextId, roots) && current in nodes && nodes[current].alternate == None
    ensures var c := nodes[current];
      HeapOk(nodes[current := c.(alternate := Some(nextId))][nextId := MountedAlternate(c, current, pendingProps)],
             rank[nextId := rank[current]], maxRank, nextId + 1, roots)
  {
    var c := nodes[current];
    var n := nodes[current := c.(alternate := Some(nextId))][nextId := MountedAlternate(c, current, pendingProps)];
    var rk := rank[nextId := rank[current]];
    assert NodeOk(nodes, rank, maxRank, nextId, roots, current);
    forall y | y in n ensures NodeOk(n, rk, maxRank, nextId + 1, roots, y) {
      if y != nextId && y != current {
        assert NodeOk(nodes, rank, maxRank, nextId, roots, y);
      }
    }
  }

  method MountWorkInProgress(heap: FiberHeap, current: FiberId, pendingProps: Value) returns (wip: FiberId)
    requires heap.Valid() && current in heap.nodes && heap.nodes[current].alternate == None
    modifies heap
    ensures heap.Valid() && heap.Grows()
    ensures wip == old(heap.nextId) && wip !in old(heap.nodes) && wip in heap.nodes
    ensures heap.rank[wip] == heap.rank[current]
    ensures heap.nodes == old(heap.nodes)[current := old(heap.nodes[current]).(alternate := Some(wip))]
                                         [wip := MountedAlternate(old(heap.nodes[current]), current, pendingProps)]
  {
    var c := heap.nodes[current];
    MountKeepsHeapOk(heap.nodes, heap.rank, heap.maxRank, heap.nextId, heap.roots, current, pendingProps);
    wip := heap.nextId;
    heap.nodes := heap.nodes[current := c.(alternate := Some(wip))][wip := MountedAlternate(c, current, pendingProps)];
    heap.rank := heap.rank[wip := heap.rank[current]];
    heap.nextId := wip + 1;
  }

  method ResetWorkInProgress(heap: FiberHeap, current: FiberId, wip: FiberId, pendingProps: Value)
    requires heap.Valid() && current in heap.nodes && heap.nodes[current].alternate == Some(wip)
    modifies heap
    ensures heap.Valid() && heap.Grows()
    ensures wip in old(heap.nodes) && heap.rank[wip] == heap.rank[current] && heap.nextId == old(heap.nextId)
    ensures heap.nodes == old(heap.nodes)[wip := ResetAlternate(old(heap.nodes[wip]), old(heap.nodes[current]), pendingProps)]
  {
    var c := heap.nodes[current];
    assert NodeOk(heap.nodes, heap.rank, heap.maxRank, heap.nextId, heap.roots, current);
    assert NodeOk(heap.nodes, heap.rank, heap.maxRank, heap.nextId, heap.roots, wip);
    heap.Set(wip, ResetAlternate(heap.nodes[wip], c, pendingProps));
  }

  /** The tag `createFiberFromElement` gives an element type: a string is a host component. */
  function ElementTag(elementType: Value): (t: WorkTag)
    ensures t == HostComponent <==> elementType.Str?
    ensures t == FunctionComponent <==> !elementType.Str?
  {
    if elementType.Str? then HostComponent else FunctionComponent
  }

  /** The record `createFiberFromElement(element)` builds. */
  function FiberFromElement(element: Value): Fiber {
    NewFiber(ElementTag(GetOptional(element, "type")), GetOptional(element, "props"), GetOptional(element, "key"))
      .(elementType := GetOptional(element, "type"))
  }

  /** `createFiberFromElement(element)`: tag from the type; type, key and props from the element. */
  method CreateFiberFromElement(heap: FiberHeap, element: Value, ghost r: nat) returns (id: FiberId)
    requires heap.Valid()
    modifies heap
    ensures id == old(heap.nextId) && id !in old(heap.nodes)
    ensures heap.nodes == old(heap.nodes)[id := FiberFromElement(element)]
    ensures heap.rank == old(heap.rank)[id := r] && heap.nextId == id + 1
    ensures heap.Valid() && heap.Grows()
  {
    id := heap.Alloc(FiberFromElement(element), r);
  }

  /** `createFiberFromFragment(elements, key)`: a Fragment whose pending props are the elements. */
  method CreateFiberFromFragment(heap: FiberHeap, elements: Value, key: Value, ghost r: nat) returns (id: FiberId)
    requires heap.Valid()
    modifies heap
    ensures id == old(heap.nextId) && id !in old(heap.nodes)
    ensures heap.nodes == old(heap.nodes)[id := NewFiber(Fragment, elements, key)]
    ensures heap.rank == old(heap.rank)[id := r]
    ensures heap.Valid() && heap.Grows()
  {
    id := heap.Alloc(NewFiber(Fragment, elements, key), r);
  }

  // ---------------------------------------------------------------------------
  // Properties.

  /** A new fiber starts with no flags, no links and index 0; falsy keys such as `""` and `0` become `null`. */
  lemma NewFiberDefaults(tag: WorkTag, pendingProps: Value, key: Value)
    ensures var f := NewFiber(tag, pendingProps, key);
      f.flags == NoFlags && f.subtreeFlags == NoFlags && f.index == 0 &&
      f.ret == None && f.sibling == None && f.child == None && f.alternate == None &&
      f.deletions == None && f.stateNode == NoStateNode && f.pendingProps == pendingProps
    ensures NewFiber(tag, pendingProps, Str("")).key == Null && NewFiber(tag, pendingProps, Num(0)).key == Null
    ensures NewFiber(tag, pendingProps, Str("a")).key == Str("a")
  {
  }

  /**
   * The key React evidently intends a fiber to keep: the element's key as it
   * is, with `null` for none, so that `""` and `0` stay keys.
   */
  function IntendedKey(key: Value): (k: Value)
    ensures k == Null <==> key == Null || key == Undefined
  {
    if key == Undefined then Null else key
  }

  /**
   * As written, an element with key `""` gets a fiber with key `null`, so the
   * key comparison of a later render (`child.key === key`) fails on it; the
   * intended key keeps every string key and agrees with `key || null` on
   * every truthy key.
   */
  lemma EmptyKeyKeptAsIntended(k: string, key: Value)
    ensures NormalizeKey(Str("")) == Null && IntendedKey(Str("")) == Str("")
    ensures IntendedKey(Str(k)) == Str(k)
    ensures Truthy(key) ==> IntendedKey(key) == NormalizeKey(key)
  {
  }

  /**
   * `n1` agrees with `n0` on every node other than `w` whose rank is at most
   * that of `w`, and `w` keeps its `return` and `alternate` links: a step on
   * `w` touches `w` and the nodes below it only.
   */
  ghost predicate ChangesBelow(n0: map<FiberId, Fiber>, n1: map<FiberId, Fiber>, rank: map<FiberId, nat>, w: FiberId) {
    && w in n0 && w in n1 && w in rank
    && n1[w].ret == n0[w].ret && n1[w].alternate == n0[w].alternate
    && forall k :: k in n0 && k in rank && k != w && rank[k] <= rank[w] ==> k in n1 && n1[k] == n0[k]
  }

  /** Two such steps make one. */
  lemma ChangesBelowTrans(n0: map<FiberId, Fiber>, n1: map<FiberId, Fiber>, n2: map<FiberId, Fiber>,
                          rank: map<FiberId, nat>, w: FiberId)
    requires ChangesBelow(n0, n1, rank, w) && ChangesBelow(n1, n2, rank, w)
    ensures ChangesBelow(n0, n2, rank, w)
  {
  }

  /** Rewriting the record of `w` without touching its `return` and `alternate`. */
  lemma ChangesBelowUpdate(n0: map<FiberId, Fiber>, rank: map<FiberId, nat>, w: FiberId, g: Fiber)
    requires w in n0 && w in rank && g.ret == n0[w].ret && g.alternate == n0[w].alternate
    ensures ChangesBelow(n0, n0[w := g], rank, w)
  {
  }

  /** The node reached from `id` by following `return` links; the rank guard holds in a valid arena. */
  ghost function TopAncestor(nodes: map<FiberId, Fiber>, rank: map<FiberId, nat>, id: FiberId): FiberId
    decreases if id in rank then rank[id] + 1 else 0
  {
    if id !in nodes || id !in rank then id
    else match nodes[id].ret
      case None => id
      case Some(p) => if p in rank && rank[p] < rank[id] then TopAncestor(nodes, rank, p) else id
  }

  /** In a valid arena the climb from a node ends at a node without a parent, of a rank no higher. */
  lemma {:induction false} TopAncestorHasNoParent(heap: FiberHeap, id: FiberId)
    requires heap.Valid() && id in heap.nodes
    ensures var top := TopAncestor(heap.nodes, heap.rank, id);
      top in heap.nodes && heap.nodes[top].ret == None && heap.rank[top] <= heap.rank[id]
    decreases heap.rank[id]
  {
    assert NodeOk(heap.nodes, heap.rank, heap.maxRank, heap.nextId, heap.roots, id);
    if heap.nodes[id].ret.Some? {
      TopAncestorHasNoParent(heap, heap.nodes[id].ret.value);
    }
  }
}
