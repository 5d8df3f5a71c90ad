/**
 * The mutation phase of the commit (packages/react-reconciler/src/commitWork.ts).
 * The walk goes down from the finished work while `subtreeFlags` intersect
 * MutationMask, then commits each fiber on the way back up through
 * `return` links. Committing performs Placement only: the fiber's topmost
 * host descendant is handed to the host with the fiber's host parent, and
 * the Placement bit is cleared.
 *
 * The specification functions below follow the code step by step, reading
 * the arena as it is at the time of each read; the lemmas at the end
 * relate them to the arena as it was before the commit.
 */
module CommitWorks {
  import opened Wrappers
  import opened ReactTypes
  import opened Lanes
  import opened FiberFlags
  import opened WorkTags
  import opened HostConfig
  import opened Fibers
  import opened HostPaths

  /** What `(parent.stateNode as FiberRootNode).container` throws on a host root whose stateNode is null. */
  const ContainerOfNull := "TypeError: Cannot read properties of null (reading 'container')"

  /**
   * `getHostParent` from `fiber.return`: the stateNode of the nearest host
   * component ancestor, or the container of the nearest host root ancestor,
   * or null when there is neither.
   */
  ghost function HostParent(nodes: map<FiberId, Fiber>, rank: map<FiberId, nat>, parent: Option<FiberId>): Result<HostValue>
    decreases if parent.Some? && parent.value in rank then rank[parent.value] + 1 else 0
  {
    match parent
    case None => Ok(NullValue)
    case Some(p) =>
      if p !in nodes || p !in rank then Ok(NullValue)
      else if nodes[p].tag == HostComponent then Ok(HostValueOf(nodes[p].stateNode))
      else if nodes[p].tag == HostRoot then
        if nodes[p].stateNode.RootNode? then Ok(ContainerValue(nodes[p].stateNode.root.container)) else Throw(ContainerOfNull)
      else match nodes[p].ret
        case None => Ok(NullValue)
        case Some(q) => if q in rank && rank[q] < rank[p] then HostParent(nodes, rank, Some(q)) else Ok(NullValue)
  }

  /** `getHostParent(fiber)`. */
  method GetHostParent(heap: FiberHeap, fiber: FiberId) returns (r: Result<HostValue>)
    requires heap.Valid() && fiber in heap.nodes
    ensures r == HostParent(heap.nodes, heap.rank, heap.nodes[fiber].ret)
  {
    var parent := heap.nodes[fiber].ret;
    assert NodeOk(heap.nodes, heap.rank, heap.maxRank, heap.nextId, heap.roots, fiber);
    while parent.Some?
      invariant parent.Some? ==> parent.value in heap.nodes
      invariant HostParent(heap.nodes, heap.rank, parent) == HostParent(heap.nodes, heap.rank, heap.nodes[fiber].ret)
      decreases if parent.Some? then heap.rank[parent.value] + 1 else 0
    {
      var p := parent.value;
      assert NodeOk(heap.nodes, heap.rank, heap.maxRank, heap.nextId, heap.roots, p);
      var f := heap.nodes[p];
      if f.tag == HostComponent {
        return Ok(HostValueOf(f.stateNode));
      }
      if f.tag == HostRoot {
        if f.stateNode.RootNode? {
          return Ok(ContainerValue(f.stateNode.root.container));
        }
        return Throw(ContainerOfNull);
      }
      parent := f.ret;
    }
    return Ok(NullValue);
  }

  /**
   * The host calls of `appendPlacementNodeIntoContainer(fiber, hostParent)`:
   * one for the host fiber the walk down `child` links ends at, with its
   * stateNode first and the host parent second, as the call is written.
   */
  ghost function PlacementOps(nodes: map<FiberId, Fiber>, rank: map<FiberId, nat>, bound: nat, fiber: FiberId,
                              hostParent: HostValue): seq<HostOp>
  {
    match HostEnd(nodes, HostPath(nodes, rank, bound, fiber))
    case None => []
    case Some(h) => [AppendChildToContainer(HostValueOf(nodes[h].stateNode), hostParent)]
  }

  /**
   * `appendPlacementNodeIntoContainer(fiber, hostParent)`: a host fiber is
   * appended itself; any other fiber hands on to its child. The loop over
   * the child's siblings never runs, since `sibling` is always null.
   */
  method AppendPlacementNodeIntoContainer(heap: FiberHeap, host: Host, fiber: FiberId, hostParent: HostValue)
    requires heap.Valid() && fiber in heap.nodes
    modifies host
    ensures host.log == old(host.log) + PlacementOps(heap.nodes, heap.rank, heap.maxRank, fiber, hostParent)
    ensures host.nextHandle == old(host.nextHandle)
    decreases heap.maxRank - heap.rank[fiber]
  {
    var f := heap.nodes[fiber];
    HostPathStep(heap, fiber);
    assert NodeOk(heap.nodes, heap.rank, heap.maxRank, heap.nextId, heap.roots, fiber);
    if f.tag == HostComponent || f.tag == HostText {
      host.AppendChildToContainerOp(HostValueOf(f.stateNode), hostParent);
      return;
    }
    if f.child.Some? {
      var c := f.child.value;
      assert NodeOk(heap.nodes, heap.rank, heap.maxRank, heap.nextId, heap.roots, c);
      AppendPlacementNodeIntoContainer(heap, host, c, hostParent);
      HostEndCons(heap.nodes, fiber, HostPath(heap.nodes, heap.rank, heap.maxRank, c));
    }
  }

  /** `commitPlacement(fiber)`: the host calls it makes, or what `getHostParent` throws. */
  ghost function PlaceFiber(nodes: map<FiberId, Fiber>, rank: map<FiberId, nat>, bound: nat, fiber: FiberId)
    : Result<seq<HostOp>>
    requires fiber in nodes
  {
    match HostParent(nodes, rank, nodes[fiber].ret)
    case Throw(e) => Throw(e)
    case Ok(hostParent) => Ok(if hostParent == NullValue then [] else PlacementOps(nodes, rank, bound, fiber, hostParent))
  }

  /** `commitPlacement(fiber)`: nothing happens without a host parent. */
  method CommitPlacement(heap: FiberHeap, host: Host, fiber: FiberId) returns (r: Result<()>)
    requires heap.Valid() && fiber in heap.nodes
    modifies host
    ensures var p := PlaceFiber(heap.nodes, heap.rank, heap.maxRank, fiber);
      && (p.Throw? ==> r == Throw(p.message) && host.log == old(host.log))
      && (p.Ok? ==> r == Ok(()) && host.log == old(host.log) + p.value)
    ensures host.nextHandle == old(host.nextHandle)
  {
    var hostParent := GetHostParent(heap, fiber);
    if hostParent.Throw? {
      return Throw(hostParent.message);
    }
    if hostParent.value != NullValue {
      AppendPlacementNodeIntoContainer(heap, host, fiber, hostParent.value);
    }
    r := Ok(());
  }

  /**
   * `commitMutationEffectsOnFiber(fiber)` on the arena and the host log:
   * only a fiber with Placement is placed, and then exactly that bit is
   * cleared; Update and ChildDeletion are ignored.
   */
  ghost function CommitFiber(m: map<FiberId, Fiber>, rank: map<FiberId, nat>, bound: nat, log: seq<HostOp>, id: FiberId)
    : (Result<()>, map<FiberId, Fiber>, seq<HostOp>)
    requires id in m
  {
    var f := m[id];
    if !Intersects(f.flags, Placement) then (Ok(()), m, log)
    else match PlaceFiber(m, rank, bound, id)
      case Throw(e) => (Throw(e), m, log)
      case Ok(ops) => (Ok(()), m[id := f.(flags := ClearFlags(f.flags, Placement))], log + ops)
  }

  method CommitMutationEffectsOnFiber(heap: FiberHeap, host: Host, fiber: FiberId) returns (r: Result<()>)
    requires heap.Valid() && fiber in heap.nodes
    modifies heap, host
    ensures heap.Valid() && heap.SameShape() && host.nextHandle == old(host.nextHandle)
    ensures var c := CommitFiber(old(heap.nodes), heap.rank, heap.maxRank, old(host.log), fiber);
      r == c.0 && heap.nodes == c.1 && host.log == c.2
  {
    var f := heap.nodes[fiber];
    if Intersects(f.flags, Placement) {
      r := CommitPlacement(heap, host, fiber);
      if r.Throw? {
        return;
      }
      heap.Update(fiber, f.(flags := ClearFlags(f.flags, Placement)));
    } else {
      r := Ok(());
    }
  }

  /**
   * The climb (`up:`): commits `id`, then its `return`, and so on to the
   * top; the first throw ends it. `sibling` is always null, so the climb
   * never breaks off to a sibling.
   */
  ghost function CommitUp(m: map<FiberId, Fiber>, rank: map<FiberId, nat>, bound: nat, log: seq<HostOp>, id: FiberId)
    : (Result<()>, map<FiberId, Fiber>, seq<HostOp>)
    decreases if id in rank then rank[id] + 1 else 0
  {
    if id !in m || id !in rank then (Ok(()), m, log)
    else
      var c := CommitFiber(m, rank, bound, log, id);
      if c.0.Throw? then c
      else match m[id].ret
        case None => c
        case Some(p) => if p in rank && rank[p] < rank[id] then CommitUp(c.1, rank, bound, c.2, p) else c
  }

  /** The climb of `commitMutationEffects` from `from`. */
  method CommitUpward(heap: FiberHeap, host: Host, from: FiberId) returns (r: Result<()>)
    requires heap.Valid() && from in heap.nodes
    modifies heap, host
    ensures heap.Valid() && heap.SameShape() && host.nextHandle == old(host.nextHandle)
    ensures var c := CommitUp(old(heap.nodes), heap.rank, heap.maxRank, old(host.log), from);
      r == c.0 && heap.nodes == c.1 && host.log == c.2
  {
    ghost var total := CommitUp(heap.nodes, heap.rank, heap.maxRank, host.log, from);
    var next := Some(from);
    r := Ok(());
    while next.Some?
      invariant heap.Valid() && heap.SameShape() && host.nextHandle == old(host.nextHandle)
      invariant next.Some? ==>
        next.value in heap.nodes && CommitUp(heap.nodes, heap.rank, heap.maxRank, host.log, next.value) == total
      invariant next.None? ==> r == total.0 && heap.nodes == total.1 && host.log == total.2
      decreases if next.Some? then heap.rank[next.value] + 1 else 0
    {
      var id := next.value;
      r := CommitMutationEffectsOnFiber(heap, host, id);
      if r.Throw? {
        return;
      }
      assert NodeOk(heap.nodes, heap.rank, heap.maxRank, heap.nextId, heap.roots, id);
      next := heap.nodes[id].ret;
    }
  }

  /**
   * Where the descent of `commitMutationEffects` stops: it goes to the
   * child only while `subtreeFlags` intersect MutationMask and the child
   * exists.
   */
  ghost function EffectLeaf(m: map<FiberId, Fiber>, rank: map<FiberId, nat>, bound: nat, id: FiberId): FiberId
    decreases if id in rank && rank[id] <= bound then bound - rank[id] + 1 else 0
  {
    if id !in m || id !in rank || rank[id] > bound then id
    else match m[id].child
      case None => id
      case Some(c) =>
        if Intersects(m[id].subtreeFlags, MutationMask) && c in rank && rank[id] < rank[c]
        then EffectLeaf(m, rank, bound, c) else id
  }

  /** `commitMutationEffects(finishedWork)`. */
  method CommitMutationEffects(heap: FiberHeap, host: Host, finishedWork: FiberId) returns (r: Result<()>)
    requires heap.Valid() && finishedWork in heap.nodes
    modifies heap, host
    ensures heap.Valid() && heap.SameShape() && host.nextHandle == old(host.nextHandle)
    ensures var leaf := EffectLeaf(old(heap.nodes), heap.rank, heap.maxRank, finishedWork);
      var c := CommitUp(old(heap.nodes), heap.rank, heap.maxRank, old(host.log), leaf);
      r == c.0 && heap.nodes == c.1 && host.log == c.2
  {
    ghost var leaf := EffectLeaf(heap.nodes, heap.rank, heap.maxRank, finishedWork);
    var nextEffects := Some(finishedWork);
    r := Ok(());
    assert NodeOk(heap.nodes, heap.rank, heap.maxRank, heap.nextId, heap.roots, finishedWork);
    while nextEffects.Some?
      invariant heap.Valid() && heap.SameShape() && host.nextHandle == old(host.nextHandle)
      invariant nextEffects.Some? ==>
        && nextEffects.value in heap.nodes && heap.rank[nextEffects.value] <= heap.maxRank
        && heap.nodes == old(heap.nodes) && host.log == old(host.log)
        && EffectLeaf(heap.nodes, heap.rank, heap.maxRank, nextEffects.value) == leaf
      invariant nextEffects.None? ==>
        var c := CommitUp(old(heap.nodes), heap.rank, heap.maxRank, old(host.log), leaf);
        r == c.0 && heap.nodes == c.1 && host.log == c.2
      decreases if nextEffects.Some? then heap.maxRank - heap.rank[nextEffects.value] + 1 else 0
    {
      var id := nextEffects.value;
      var f := heap.nodes[id];
      assert NodeOk(heap.nodes, heap.rank, heap.maxRank, heap.nextId, heap.roots, id);
      if Intersects(f.subtreeFlags, MutationMask) && f.child.Some? {
        assert NodeOk(heap.nodes, heap.rank, heap.maxRank, heap.nextId, heap.roots, f.child.value);
        nextEffects := f.child;
      } else {
        r := CommitUpward(heap, host, id);
        nextEffects := None;
      }
    }
  }

  /** Two arenas with the same nodes and the same links in every record: a commit changes flags only. */
  ghost predicate SameLinks(n1: map<FiberId, Fiber>, n2: map<FiberId, Fiber>) {
    n1.Keys == n2.Keys && forall k :: k in n1 ==> Links(n1[k]) == Links(n2[k])
  }

  /** `getHostParent` reads links only. */
  lemma {:induction false} HostParentLinks(n1: map<FiberId, Fiber>, n2: map<FiberId, Fiber>, rank: map<FiberId, nat>,
                                           parent: Option<FiberId>)
    requires SameLinks(n1, n2)
    ensures HostParent(n1, rank, parent) == HostParent(n2, rank, parent)
    decreases if parent.Some? && parent.value in rank then rank[parent.value] + 1 else 0
  {
    if parent.Some? && parent.value in n1 && parent.value in rank {
      var p := parent.value;
      assert Links(n1[p]) == Links(n2[p]);
      if n1[p].tag != HostComponent && n1[p].tag != HostRoot && n1[p].ret.Some? {
        var q := n1[p].ret.value;
        if q in rank && rank[q] < rank[p] {
          HostParentLinks(n1, n2, rank, Some(q));
        }
      }
    }
  }

  /** What committing a placement does depends on links only. */
  lemma PlaceFiberLinks(n1: map<FiberId, Fiber>, n2: map<FiberId, Fiber>, rank: map<FiberId, nat>, bound: nat, fiber: FiberId)
    requires SameLinks(n1, n2) && fiber in n1
    ensures PlaceFiber(n1, rank, bound, fiber) == PlaceFiber(n2, rank, bound, fiber)
  {
    assert Links(n1[fiber]) == Links(n2[fiber]);
    HostParentLinks(n1, n2, rank, n1[fiber].ret);
    assert SameTree(n1, n2) by {
      forall k | k in n1
        ensures n1[k].tag == n2[k].tag && n1[k].child == n2[k].child && n1[k].stateNode == n2[k].stateNode
      {
        assert Links(n1[k]) == Links(n2[k]);
      }
    }
    HostPathSameTree(n1, n2, rank, bound, fiber);
  }

  /** The fibers from `id` up through `return` links: the ones the climb commits, in order. */
  ghost function RetChain(m: map<FiberId, Fiber>, rank: map<FiberId, nat>, id: FiberId): (chain: seq<FiberId>)
    ensures chain != [] ==> id in rank && forall i :: 0 <= i < |chain| ==> chain[i] in m && chain[i] in rank && rank[chain[i]] <= rank[id]
    decreases if id in rank then rank[id] + 1 else 0
  {
    if id !in m || id !in rank then []
    else match m[id].ret
      case None => [id]
      case Some(p) => if p in rank && rank[p] < rank[id] then [id] + RetChain(m, rank, p) else [id]
  }

  /** The arena with the Placement bit cleared on every fiber of `chain` and nothing else changed. */
  ghost function ClearedOn(m: map<FiberId, Fiber>, chain: seq<FiberId>): map<FiberId, Fiber> {
    map k | k in m :: if k in chain then m[k].(flags := ClearFlags(m[k].flags, Placement)) else m[k]
  }

  /** The host calls committing fiber `x` makes, computed on the arena `m0`; none when it throws. */
  ghost function PlacementOf(m0: map<FiberId, Fiber>, rank: map<FiberId, nat>, bound: nat, x: FiberId): seq<HostOp> {
    if x in m0 && Intersects(m0[x].flags, Placement) && PlaceFiber(m0, rank, bound, x).Ok?
    then PlaceFiber(m0, rank, bound, x).value else []
  }

  /** The host calls committing the fibers of `chain` in order makes, each computed on the arena `m0`. */
  ghost function PlacementLog(m0: map<FiberId, Fiber>, rank: map<FiberId, nat>, bound: nat, chain: seq<FiberId>): seq<HostOp>
    decreases |chain|
  {
    if chain == [] then [] else PlacementOf(m0, rank, bound, chain[0]) + PlacementLog(m0, rank, bound, chain[1..])
  }

  /** The placements of a chain are those of its first fiber followed by those of the rest. */
  lemma PlacementLogCons(m0: map<FiberId, Fiber>, rank: map<FiberId, nat>, bound: nat, log: seq<HostOp>,
                         id: FiberId, rest: seq<FiberId>)
    ensures log + PlacementOf(m0, rank, bound, id) + PlacementLog(m0, rank, bound, rest)
         == log + PlacementLog(m0, rank, bound, [id] + rest)
  {
    assert ([id] + rest)[1..] == rest;
  }

  /** Clearing the Placement bit of a fiber that has none changes nothing. */
  lemma NoPlacementClear(f: Flags)
    ensures !Intersects(f, Placement) ==> ClearFlags(f, Placement) == f
  {
  }

  /** Clearing one fiber first and the rest of a chain after is clearing the whole chain. */
  lemma ClearedOnCons(m: map<FiberId, Fiber>, id: FiberId, rest: seq<FiberId>)
    requires id in m && id !in rest
    ensures ClearedOn(m[id := m[id].(flags := ClearFlags(m[id].flags, Placement))], rest) == ClearedOn(m, [id] + rest)
  {
  }

  /** Clearing nothing. */
  lemma ClearedOnNone(m: map<FiberId, Fiber>)
    ensures ClearedOn(m, []) == m
  {
  }

  /**
   * Committing one fiber whose record is as in `m0`, over an arena with
   * the links of `m0`: when it succeeds, only its Placement bit is cleared,
   * the links stay those of `m0`, and the log grows by its placement on `m0`.
   */
  lemma CommitFiberStep(m0: map<FiberId, Fiber>, m: map<FiberId, Fiber>, rank: map<FiberId, nat>, bound: nat,
                        log: seq<HostOp>, id: FiberId)
    requires SameLinks(m0, m) && id in m && m[id] == m0[id]
    ensures var c := CommitFiber(m, rank, bound, log, id);
      c.0.Ok? ==>
        && c.1 == m[id := m[id].(flags := ClearFlags(m[id].flags, Placement))]
        && c.2 == log + PlacementOf(m0, rank, bound, id)
        && SameLinks(m0, c.1)
  {
    PlaceFiberLinks(m0, m, rank, bound, id);
    NoPlacementClear(m[id].flags);
    FlagsKeepLinks(m0, m, id, ClearFlags(m[id].flags, Placement));
  }

  /** Setting the flags of one fiber keeps the links. */
  lemma FlagsKeepLinks(m0: map<FiberId, Fiber>, m: map<FiberId, Fiber>, id: FiberId, flags: Flags)
    requires SameLinks(m0, m) && id in m
    ensures SameLinks(m0, m[id := m[id].(flags := flags)])
  {
    var m1 := m[id := m[id].(flags := flags)];
    forall k | k in m0 ensures Links(m0[k]) == Links(m1[k]) {
      assert Links(m0[k]) == Links(m[k]);
    }
  }

  /** One step of the climb: commit `id`, then go on to its `return` when the rank guard lets it. */
  lemma CommitUpUnfold(m: map<FiberId, Fiber>, rank: map<FiberId, nat>, bound: nat, log: seq<HostOp>, id: FiberId)
    requires id in m && id in rank
    ensures var c := CommitFiber(m, rank, bound, log, id);
      var p := m[id].ret;
      c.0.Ok? ==>
        if p.Some? && p.value in rank && rank[p.value] < rank[id]
        then CommitUp(m, rank, bound, log, id) == CommitUp(c.1, rank, bound, c.2, p.value)
        else CommitUp(m, rank, bound, log, id) == c
  {
  }

  /**
   * The climb from `id` over an arena `m` that differs from `m0` in flags
   * only, and not at all at and below the rank of `id`: when it succeeds,
   * every fiber of the ret chain of `id` has lost its Placement bit and no
   * other fiber has changed, and the host log has grown by the placements
   * of that chain, each computed on `m0`.
   */
  lemma {:induction false} CommitUpFrom(m0: map<FiberId, Fiber>, m: map<FiberId, Fiber>, rank: map<FiberId, nat>,
                                        bound: nat, log: seq<HostOp>, id: FiberId)
    requires SameLinks(m0, m)
    requires id in rank ==> forall k :: k in m && k in rank && rank[k] <= rank[id] ==> m[k] == m0[k]
    ensures var c := CommitUp(m, rank, bound, log, id);
      c.0.Ok? ==>
        c.1 == ClearedOn(m, RetChain(m0, rank, id)) && c.2 == log + PlacementLog(m0, rank, bound, RetChain(m0, rank, id))
    decreases if id in rank then rank[id] + 1 else 0
  {
    if id !in m || id !in rank {
      assert RetChain(m0, rank, id) == [];
      ClearedOnNone(m);
    } else {
      assert m[id] == m0[id];
      CommitFiberStep(m0, m, rank, bound, log, id);
      CommitUpUnfold(m, rank, bound, log, id);
      var c := CommitFiber(m, rank, bound, log, id);
      if c.0.Ok? {
        var m1 := c.1;
        var p := m[id].ret;
        assert Links(m0[id]) == Links(m[id]);
        if p.Some? && p.value in rank && rank[p.value] < rank[id] {
          var q := p.value;
          CommitUpFrom(m0, m1, rank, bound, c.2, q);
          var rest := RetChain(m0, rank, q);
          assert RetChain(m0, rank, id) == [id] + rest;
          assert id !in rest;
          ClearedOnCons(m, id, rest);
          PlacementLogCons(m0, rank, bound, log, id, rest);
          var up := CommitUp(m1, rank, bound, c.2, q);
          assert up.0.Ok? ==> up.1 == ClearedOn(m, [id] + rest);
        } else {
          assert RetChain(m0, rank, id) == [id] == [id] + [];
          ClearedOnCons(m, id, []);
          ClearedOnNone(m1);
          assert m1 == ClearedOn(m, [id]);
          assert PlacementLog(m0, rank, bound, [id]) == PlacementOf(m0, rank, bound, id);
        }
      }
    }
  }

  /**
   * A successful commit of the climb from `id`: Placement is cleared on
   * exactly the fibers of the ret chain of `id`, and the host log grows by
   * their placements, in that order, each computed on the arena before the
   * commit.
   */
  lemma CommitUpReference(m: map<FiberId, Fiber>, rank: map<FiberId, nat>, bound: nat, log: seq<HostOp>, id: FiberId)
    ensures var c := CommitUp(m, rank, bound, log, id);
      c.0.Ok? ==>
        c.1 == ClearedOn(m, RetChain(m, rank, id)) && c.2 == log + PlacementLog(m, rank, bound, RetChain(m, rank, id))
  {
    CommitUpFrom(m, m, rank, bound, log, id);
  }

  /**
   * Placing a host component directly under a host root: the call hands the
   * host the component's instance as the parent and the root's container as
   * the child, the reverse of `appendChildToContainer(container, child)`.
   */
  lemma RootPlacementSwapsArguments(heap: FiberHeap, fiber: FiberId)
    requires heap.Valid() && fiber in heap.nodes
    requires heap.nodes[fiber].tag == HostComponent && heap.nodes[fiber].stateNode.Instance?
    requires heap.nodes[fiber].ret.Some? && heap.nodes[fiber].ret.value in heap.nodes
    requires var r := heap.nodes[heap.nodes[fiber].ret.value]; r.tag == HostRoot && r.stateNode.RootNode?
    ensures var container := heap.nodes[heap.nodes[fiber].ret.value].stateNode.root.container;
      var instance := heap.nodes[fiber].stateNode.handle;
      PlaceFiber(heap.nodes, heap.rank, heap.maxRank, fiber)
        == Ok([AppendChildToContainer(Handle(instance), ContainerValue(container))])
  {
    HostPathStep(heap, fiber);
    assert NodeOk(heap.nodes, heap.rank, heap.maxRank, heap.nextId, heap.roots, fiber);
  }

  /** The host call with the container first, in the order `appendChildToContainer` declares. */
  function ContainerFirst(op: HostOp): HostOp {
    match op
    case AppendChildToContainer(child, container) => AppendChildToContainer(container, child)
    case _ => op
  }

  /**
   * The host calls of `appendPlacementNodeIntoContainer` as React evidently
   * intends them: the host parent first, then the host fiber's stateNode.
   */
  ghost function IntendedPlacementOps(nodes: map<FiberId, Fiber>, rank: map<FiberId, nat>, bound: nat, fiber: FiberId,
                                      hostParent: HostValue): (ops: seq<HostOp>)
    ensures forall i :: 0 <= i < |ops| ==> ops[i].AppendChildToContainer? && ops[i].parent == hostParent
  {
    match HostEnd(nodes, HostPath(nodes, rank, bound, fiber))
    case None => []
    case Some(h) => [AppendChildToContainer(hostParent, HostValueOf(nodes[h].stateNode))]
  }

  /**
   * Under a host root, the intended call appends the instance to the root's
   * container, and the call as written is that call with its arguments
   * swapped.
   */
  lemma RootPlacementContainerFirst(heap: FiberHeap, fiber: FiberId)
    requires heap.Valid() && fiber in heap.nodes
    requires heap.nodes[fiber].tag == HostComponent && heap.nodes[fiber].stateNode.Instance?
    requires heap.nodes[fiber].ret.Some? && heap.nodes[fiber].ret.value in heap.nodes
    requires var r := heap.nodes[heap.nodes[fiber].ret.value]; r.tag == HostRoot && r.stateNode.RootNode?
    ensures var container := ContainerValue(heap.nodes[heap.nodes[fiber].ret.value].stateNode.root.container);
      var instance := Handle(heap.nodes[fiber].stateNode.handle);
      var intended := IntendedPlacementOps(heap.nodes, heap.rank, heap.maxRank, fiber, container);
      && intended == [AppendChildToContainer(container, instance)]
      && PlaceFiber(heap.nodes, heap.rank, heap.maxRank, fiber) == Ok([ContainerFirst(intended[0])])
  {
    RootPlacementSwapsArguments(heap, fiber);
  }
}
