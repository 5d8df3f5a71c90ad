/**
 * The render loop and the commit entry (packages/react-reconciler/src/workLoop.ts).
 * The source keeps `workInProgress` as module state; here it is a field of
 * a `WorkLoop` object, next to a ghost trace of the units of work begun and
 * completed. Sibling links are always null, so the loop walks down one path
 * of `child` links and then climbs back up it.
 */
module WorkLoops {
  import opened Wrappers
  import opened ReactTypes
  import opened FiberFlags
  import opened WorkTags
  import opened UpdateQueues
  import opened HostConfig
  import opened Fibers
  import opened BeginWorks
  import opened CompleteWorks
  import opened CommitWorks

  /** What reading `root.current` of a null root throws. */
  const CurrentOfNull := "TypeError: Cannot read properties of null (reading 'current')"

  /** One unit of work in the trace: `beginWork(fiber)` or `completeWork(fiber)` returned. */
  datatype Step = Began(fiber: FiberId) | Completed(fiber: FiberId)

  function Begins(path: seq<FiberId>): seq<Step> {
    seq(|path|, i requires 0 <= i < |path| => Began(path[i]))
  }

  function Completes(path: seq<FiberId>): seq<Step> {
    seq(|path|, i requires 0 <= i < |path| => Completed(path[i]))
  }

  /** The fibers of a path in the order the climb completes them: from the last one up to the first. */
  function Upward(path: seq<FiberId>): seq<FiberId> {
    seq(|path|, i requires 0 <= i < |path| => path[|path| - 1 - i])
  }

  /** Beginning `x` after the fibers of `path`. */
  lemma BeginsSnoc(t: seq<Step>, path: seq<FiberId>, x: FiberId)
    ensures (t + Begins(path)) + [Began(x)] == t + Begins(path + [x])
  {
    assert Begins(path + [x]) == Begins(path) + [Began(x)];
  }

  /** Completing `x` after the fibers of `path`. */
  lemma CompletesSnoc(t: seq<Step>, path: seq<FiberId>, x: FiberId)
    ensures (t + Completes(path)) + [Completed(x)] == t + Completes(path + [x])
  {
    assert Completes(path + [x]) == Completes(path) + [Completed(x)];
  }

  /** Each fiber of `path` lies below the ones before it. */
  ghost predicate Descending(rank: map<FiberId, nat>, path: seq<FiberId>) {
    forall i, j :: 0 <= i < j < |path| ==> path[i] in rank && path[j] in rank && rank[path[i]] < rank[path[j]]
  }

  /**
   * The fibers begun so far, from the top down: each lies below the ones
   * before it and has the previous one as its `return`, and the first has
   * no `return`.
   */
  ghost predicate PathOk(nodes: map<FiberId, Fiber>, rank: map<FiberId, nat>, path: seq<FiberId>) {
    && (forall i :: 0 <= i < |path| ==> path[i] in nodes && path[i] in rank)
    && Descending(rank, path)
    && (forall i :: 0 < i < |path| ==> nodes[path[i]].ret == Some(path[i - 1]))
    && (path != [] ==> nodes[path[0]].ret == None)
  }

  /** A step on the last fiber of the path keeps the path. */
  lemma PathKept(n0: map<FiberId, Fiber>, n1: map<FiberId, Fiber>, r0: map<FiberId, nat>, r1: map<FiberId, nat>,
                 path: seq<FiberId>)
    requires path != [] && PathOk(n0, r0, path)
    requires forall k :: k in r0 ==> k in r1 && r1[k] == r0[k]
    requires ChangesBelow(n0, n1, r1, path[|path| - 1])
    ensures PathOk(n1, r1, path)
  {
    var w := |path| - 1;
    forall i | 0 <= i < w
      ensures path[i] in n1 && n1[path[i]] == n0[path[i]]
    {
      assert r0[path[i]] < r0[path[w]];
    }
  }

  /** A new child of the last fiber extends the path. */
  lemma PathExtend(nodes: map<FiberId, Fiber>, rank: map<FiberId, nat>, path: seq<FiberId>, c: FiberId)
    requires path != [] && PathOk(nodes, rank, path)
    requires c in nodes && c in rank && rank[c] > rank[path[|path| - 1]] && nodes[c].ret == Some(path[|path| - 1])
    ensures PathOk(nodes, rank, path + [c])
  {
  }

  /** The ends of a path, and how the first lies above the last. */
  lemma PathEnds(nodes: map<FiberId, Fiber>, rank: map<FiberId, nat>, path: seq<FiberId>)
    requires path != [] && PathOk(nodes, rank, path)
    ensures path[|path| - 1] in nodes && path[|path| - 1] in rank && path[0] in rank
    ensures |path| == 1 || rank[path[0]] < rank[path[|path| - 1]]
  {
  }

  /** Completing `path[m - 1]` after the fibers below it. */
  lemma UpwardNext(t0: seq<Step>, path: seq<FiberId>, m: nat)
    requires 0 < m <= |path|
    ensures (t0 + Completes(Upward(path)[..|path| - m])) + [Completed(path[m - 1])] ==
            t0 + Completes(Upward(path)[..|path| - (m - 1)])
  {
    var j := |path| - m;
    assert Upward(path)[..j + 1] == Upward(path)[..j] + [path[m - 1]];
    CompletesSnoc(t0, Upward(path)[..j], path[m - 1]);
  }

  /** A step on `w`, at `s` or below it, after a run of steps on `s` and below: still a run on `s` and below. */
  lemma ChangesBelowStep(n0: map<FiberId, Fiber>, n1: map<FiberId, Fiber>, n2: map<FiberId, Fiber>,
                         r1: map<FiberId, nat>, r2: map<FiberId, nat>, s: FiberId, w: FiberId)
    requires ChangesBelow(n0, n1, r1, s) && ChangesBelow(n1, n2, r2, w)
    requires forall k :: k in r1 ==> k in r2 && r2[k] == r1[k]
    requires n0.Keys <= r1.Keys
    requires w == s || r2[s] < r2[w]
    ensures ChangesBelow(n0, n2, r2, s)
  {
  }

  lemma ChangesBelowNothing(n: map<FiberId, Fiber>, rank: map<FiberId, nat>, s: FiberId)
    requires s in n && s in rank
    ensures ChangesBelow(n, n, rank, s)
  {
  }

  /** The root `markUpdateFromFiberToRoot(fiber)` finds: the stateNode of the topmost ancestor when that is a host root. */
  ghost function RootOf(heap: FiberHeap, fiber: FiberId): (root: Option<FiberRootNode>)
    reads heap
    requires heap.Valid()
    ensures root.Some? ==> root.value in heap.roots
  {
    var top := TopAncestor(heap.nodes, heap.rank, fiber);
    if top in heap.nodes && heap.nodes[top].tag == HostRoot && heap.nodes[top].stateNode.RootNode?
    then assert NodeOk(heap.nodes, heap.rank, heap.maxRank, heap.nextId, heap.roots, top); Some(heap.nodes[top].stateNode.root)
    else None
  }

  /** A fiber and its `return` find the same root, and a host root finds its own. */
  lemma RootOfClimb(heap: FiberHeap, fiber: FiberId)
    requires heap.Valid() && fiber in heap.nodes
    ensures heap.nodes[fiber].ret.Some? ==>
      RootOf(heap, fiber) == RootOf(heap, heap.nodes[fiber].ret.value)
    ensures heap.nodes[fiber].tag == HostRoot ==>
      RootOf(heap, fiber) ==
        (if heap.nodes[fiber].stateNode.RootNode? then Some(heap.nodes[fiber].stateNode.root) else None)
  {
    assert NodeOk(heap.nodes, heap.rank, heap.maxRank, heap.nextId, heap.roots, fiber);
  }

  /** The update queues of the current host roots of all roots. */
  ghost function RootQueues(heap: FiberHeap): set<object>
    reads heap, heap.roots
  {
    set root, q | root in heap.roots && q in RootQueue(heap.nodes, root.current) :: q
  }

  /**
   * Committing is skipped when neither the finished work nor its subtree
   * has a mutation flag; running it would change nothing either.
   */
  lemma SkippedCommitChangesNothing(m: map<FiberId, Fiber>, rank: map<FiberId, nat>, bound: nat, log: seq<HostOp>,
                                    fw: FiberId)
    requires fw in m && fw in rank && m[fw].ret == None
    requires !Intersects(m[fw].subtreeFlags, MutationMask) && !Intersects(m[fw].flags, MutationMask)
    ensures CommitUp(m, rank, bound, log, EffectLeaf(m, rank, bound, fw)) == (Ok(()), m, log)
  {
    MaskContents(m[fw].flags);
    assert EffectLeaf(m, rank, bound, fw) == fw;
  }

  /** The arena only grew: no fiber was lost and ranks and roots were kept. */
  twostate predicate Grew(heap: FiberHeap)
    reads heap
  {
    && old(heap.nodes).Keys <= heap.nodes.Keys
    && (forall id :: id in old(heap.rank) ==> id in heap.rank && heap.rank[id] == old(heap.rank[id]))
    && old(heap.nextId) <= heap.nextId && heap.roots == old(heap.roots)
  }

  /** The root's scheduling fields, which the commit does not touch. */
  twostate predicate ScheduleKept(root: FiberRootNode)
    reads root
  {
    && root.pendingLanes == old(root.pendingLanes) && root.finishedLane == old(root.finishedLane)
    && root.pendingPassiveUnmount == old(root.pendingPassiveUnmount)
    && root.pendingPassiveUpdate == old(root.pendingPassiveUpdate)
    && root.callbackNode == old(root.callbackNode) && root.callbackPriority == old(root.callbackPriority)
  }

  /**
   * `commitRoot(root)`: nothing without finished work; otherwise
   * finishedWork is cleared, the mutation effects run when the finished
   * work or its subtree has a mutation flag, and the finished work becomes
   * `current` unless they throw.
   */
  method CommitRoot(heap: FiberHeap, host: Host, root: FiberRootNode) returns (r: Result<()>)
    requires heap.Valid() && (root.finishedWork.Some? ==> root.finishedWork.value in heap.nodes)
    modifies heap, host, root
    ensures heap.Valid() && heap.SameShape() && ScheduleKept(root) && root.finishedWork == None
    ensures old(root.finishedWork).None? ==>
      r.Ok? && root.current == old(root.current) && heap.nodes == old(heap.nodes) && host.log == old(host.log)
    ensures old(root.finishedWork).Some? ==>
      var fw := old(root.finishedWork).value;
      var f := old(heap.nodes[fw]);
      if Intersects(f.subtreeFlags, MutationMask) || Intersects(f.flags, MutationMask) then
        var c := CommitUp(old(heap.nodes), heap.rank, heap.maxRank, old(host.log),
                          EffectLeaf(old(heap.nodes), heap.rank, heap.maxRank, fw));
        r == c.0 && heap.nodes == c.1 && host.log == c.2 && root.current == (if r.Ok? then fw else old(root.current))
      else
        r.Ok? && root.current == fw && heap.nodes == old(heap.nodes) && host.log == old(host.log)
  {
    var finishedWork := root.finishedWork;
    if finishedWork.None? {
      return Ok(());
    }
    var fw := finishedWork.value;
    root.finishedWork := None;
    var f := heap.nodes[fw];
    var subtreeHasFlags := Intersects(f.subtreeFlags, MutationMask);
    var rootHasEffect := Intersects(f.flags, MutationMask);
    if subtreeHasFlags || rootHasEffect {
      r := CommitMutationEffects(heap, host, fw);
      if r.Throw? {
        return;
      }
      root.current := fw;
    } else {
      root.current := fw;
      r := Ok(());
    }
  }

  /**
   * The end of `renderRoot`: `root.current.alternate` becomes
   * `root.finishedWork` and is committed; it is `current` afterwards
   * unless the commit throws.
   */
  method FinishAndCommit(heap: FiberHeap, host: Host, root: FiberRootNode) returns (r: Result<()>)
    requires heap.Valid() && root.current in heap.nodes
    requires heap.nodes[root.current].alternate.Some? && heap.nodes[root.current].alternate.value in heap.nodes
    modifies heap, host, root
    ensures heap.Valid() && heap.SameShape() && ScheduleKept(root) && root.finishedWork == None
    ensures r.Ok? ==> root.current == old(heap.nodes[root.current]).alternate.value
    ensures r.Throw? ==> root.current == old(root.current)
  {
    var finishedWork := heap.nodes[root.current].alternate;
    root.finishedWork := finishedWork;
    r := CommitRoot(heap, host, root);
  }

  /**
   * `markUpdateFromFiberToRoot(fiber)`: climbs `return` links to the
   * topmost ancestor and yields its root when that is a host root.
   */
  method MarkUpdateFromFiberToRoot(heap: FiberHeap, fiber: FiberId) returns (root: Option<FiberRootNode>)
    requires heap.Valid() && fiber in heap.nodes
    ensures root == RootOf(heap, fiber)
  {
    var node := fiber;
    var parent := heap.nodes[node].ret;
    while parent.Some?
      invariant node in heap.nodes && parent == heap.nodes[node].ret
      invariant TopAncestor(heap.nodes, heap.rank, node) == TopAncestor(heap.nodes, heap.rank, fiber)
      decreases heap.rank[node]
    {
      assert NodeOk(heap.nodes, heap.rank, heap.maxRank, heap.nextId, heap.roots, node);
      node := parent.value;
      parent := heap.nodes[node].ret;
    }
    assert NodeOk(heap.nodes, heap.rank, heap.maxRank, heap.nextId, heap.roots, node);
    if heap.nodes[node].tag == HostRoot && heap.nodes[node].stateNode.RootNode? {
      return Some(heap.nodes[node].stateNode.root);
    }
    return None;
  }

  /**
   * What `scheduleUpdateOnFiber(fiber)` did, given the outcome `r`, the
   * finished work-in-progress, and the outcome and path of the first run
   * of the work loop.
   */
  twostate predicate Scheduled(loop: WorkLoop, heap: FiberHeap, host: Host, fiber: FiberId, new r: Result<()>,
                               finished: FiberId, new rendered: Result<()>, path: seq<FiberId>)
    requires old(heap.Valid()) && old(RootsOk(heap)) && heap.roots == old(heap.roots)
    reads loop, heap, host, heap.roots
  {
    var root := old(RootOf(heap, fiber));
    if root.None? then
      r == Throw(CurrentOfNull) && heap.nodes == old(heap.nodes) && host.log == old(host.log) &&
      loop.workInProgress == old(loop.workInProgress) && loop.trace == old(loop.trace)
    else
      var alt := old(heap.nodes[root.value.current]).alternate;
      && loop.workInProgress == None && root.value.finishedWork == None
      && (alt.Some? ==> finished == alt.value)
      && (alt.None? ==> finished == old(heap.nextId) && finished !in old(heap.nodes))
      && path != [] && path[0] == finished
      && (rendered.Ok? ==> loop.trace == old(loop.trace) + Begins(path) + Completes(Upward(path)))
      && root.value.current == (if r.Ok? then finished else old(root.value.current))
  }

  /** The module state of the work loop. */
  class WorkLoop {
    /** `workInProgress`. */
    var workInProgress: Option<FiberId>
    /** The units of work begun and completed, oldest first. */
    ghost var trace: seq<Step>

    constructor ()
      ensures workInProgress == None && trace == []
    {
      workInProgress := None;
      trace := [];
    }

    /**
     * One turn of the climb: completes `path[m - 1]`, the lowest fiber of
     * `path` not yet completed, and reads its `return`, which is the fiber
     * above it. The fibers above are left as they were in `n0`, and what
     * changed since `n0` stays at or below `path[0]`.
     */
    method CompleteAndClimb(heap: FiberHeap, host: Host, node: FiberId, ghost n0: map<FiberId, Fiber>,
                            ghost path: seq<FiberId>, ghost m: nat)
      returns (r: Result<()>, next: Option<FiberId>)
      requires heap.Valid() && 0 < m <= |path| && node == path[m - 1] && PathOk(n0, heap.rank, path)
      requires forall i :: 0 <= i < m ==> path[i] in heap.nodes && heap.nodes[path[i]] == n0[path[i]]
      requires n0.Keys <= heap.rank.Keys && ChangesBelow(n0, heap.nodes, heap.rank, path[0])
      modifies heap, host
      ensures heap.Valid() && heap.SameShape()
      ensures ChangesBelow(n0, heap.nodes, heap.rank, path[0])
      ensures r.Ok? ==> next == (if m == 1 then None else Some(path[m - 2]))
      ensures forall i :: 0 <= i < m - 1 ==> path[i] in heap.nodes && heap.nodes[path[i]] == n0[path[i]]
    {
      ghost var before := heap.nodes;
      assert m == 1 || heap.rank[path[0]] < heap.rank[path[m - 1]];
      r := CompleteWork(heap, host, node);
      ChangesBelowStep(n0, before, heap.nodes, heap.rank, heap.rank, path[0], node);
      forall i | 0 <= i < m - 1
        ensures path[i] in heap.nodes && heap.nodes[path[i]] == n0[path[i]]
      {
        assert heap.rank[path[i]] < heap.rank[path[m - 1]];
      }
      next := heap.nodes[node].ret;
    }

    /**
     * `completeUnitOfWork(fiber)`: completes `fiber` and then each `return`
     * in turn, up to and including the fiber without one; afterwards
     * `workInProgress` is null. The climb is the path begun from the top,
     * reversed. When a completion throws, `workInProgress` is the fiber of
     * the path it threw on.
     */
    method CompleteUnitOfWork(heap: FiberHeap, host: Host, fiber: FiberId, ghost path: seq<FiberId>)
      returns (r: Result<()>)
      requires heap.Valid() && path != [] && path[|path| - 1] == fiber && PathOk(heap.nodes, heap.rank, path)
      requires workInProgress == Some(fiber)
      modifies this, heap, host
      ensures heap.Valid() && heap.SameShape()
      ensures ChangesBelow(old(heap.nodes), heap.nodes, heap.rank, path[0])
      ensures r.Ok? ==> workInProgress == None && trace == old(trace) + Completes(Upward(path))
      ensures r.Throw? ==> workInProgress.Some? && workInProgress.value in path
    {
      var node := Some(fiber);
      ghost var m: nat := |path|;
      r := Ok(());
      ChangesBelowNothing(heap.nodes, heap.rank, path[0]);
      while node.Some?
        invariant heap.Valid() && heap.SameShape() && r.Ok?
        invariant m <= |path| && workInProgress == node && node == (if m == 0 then None else Some(path[m - 1]))
        invariant forall i :: 0 <= i < m ==> path[i] in heap.nodes && heap.nodes[path[i]] == old(heap.nodes)[path[i]]
        invariant trace == old(trace) + Completes(Upward(path)[..|path| - m])
        invariant ChangesBelow(old(heap.nodes), heap.nodes, heap.rank, path[0])
        decreases m
      {
        var n := node.value;
        var next;
        r, next := CompleteAndClimb(heap, host, n, old(heap.nodes), path, m);
        if r.Throw? {
          return;
        }
        UpwardNext(old(trace), path, m);
        trace := trace + [Completed(n)];
        node := next;
        workInProgress := node;
        m := m - 1;
      }
      assert Upward(path)[..|path|] == Upward(path);
    }

    /**
     * The first half of `performUnitOfWork(fiber)`: `beginWork(fiber)`,
     * then the copy of its pending props into its memoized props. A child
     * it returns lies below `fiber` and, for a host component, has
     * shallower props.
     */
    method BeginUnit(heap: FiberHeap, fiber: FiberId) returns (next: Result<Option<FiberId>>)
      requires heap.Valid() && fiber in heap.nodes && RootQueueOk(heap.nodes, fiber)
      modifies heap, RootQueue(heap.nodes, fiber)
      ensures heap.Valid() && Grew(heap)
      ensures ChangesBelow(old(heap.nodes), heap.nodes, heap.rank, fiber)
      ensures next.Ok? ==> heap.nodes[fiber].memoizedProps == heap.nodes[fiber].pendingProps
      ensures next.Ok? && next.value.Some? ==>
        var child := next.value.value;
        && old(heap.nodes[fiber].tag) in {HostRoot, HostComponent}
        && child in heap.nodes && child in heap.rank && heap.rank[child] > heap.rank[fiber]
        && heap.nodes[child].ret == Some(fiber) && heap.nodes[fiber].child == Some(child)
        && heap.nodes[child].tag != HostRoot
        && (old(heap.nodes[fiber].tag) == HostComponent ==>
              Depth(heap.nodes[child].pendingProps) < Depth(old(heap.nodes[fiber].pendingProps)))
    {
      next := BeginWork(heap, fiber);
      if next.Throw? {
        return;
      }
      var f := heap.nodes[fiber];
      ghost var n1 := heap.nodes;
      heap.Update(fiber, f.(memoizedProps := f.pendingProps));
      ChangesBelowUpdate(n1, heap.rank, fiber, heap.nodes[fiber]);
      ChangesBelowTrans(old(heap.nodes), n1, heap.nodes, heap.rank, fiber);
    }

    /**
     * `performUnitOfWork(fiber)`: begins `fiber`, copies its pending props
     * into its memoized props, and then either moves to the child
     * `beginWork` returned or, without one, completes upwards. `path` is
     * the path begun so far, ending at `fiber`.
     */
    method PerformUnitOfWork(heap: FiberHeap, host: Host, fiber: FiberId, ghost path: seq<FiberId>)
      returns (r: Result<()>)
      requires heap.Valid() && path != [] && path[|path| - 1] == fiber && PathOk(heap.nodes, heap.rank, path)
      requires workInProgress == Some(fiber) && RootQueueOk(heap.nodes, fiber)
      modifies this, heap, host, RootQueue(heap.nodes, fiber)
      ensures heap.Valid() && Grew(heap)
      ensures ChangesBelow(old(heap.nodes), heap.nodes, heap.rank, path[0])
      ensures r.Throw? ==> workInProgress.Some?
      ensures r.Ok? && workInProgress.Some? ==>
        var child := workInProgress.value;
        && trace == old(trace) + [Began(fiber)]
        && old(heap.nodes[fiber].tag) in {HostRoot, HostComponent}
        && PathOk(heap.nodes, heap.rank, path + [child]) && child in heap.nodes
        && heap.nodes[fiber].child == Some(child) && heap.nodes[child].tag != HostRoot
        && heap.nodes[fiber].memoizedProps == heap.nodes[fiber].pendingProps
        && (old(heap.nodes[fiber].tag) == HostComponent ==>
              Depth(heap.nodes[child].pendingProps) < Depth(old(heap.nodes[fiber].pendingProps)))
      ensures r.Ok? && workInProgress.None? ==>
        trace == old(trace) + [Began(fiber)] + Completes(Upward(path)) && Descending(heap.rank, path)
    {
      ghost var n0 := heap.nodes;
      var next := BeginUnit(heap, fiber);
      if next.Throw? {
        return Throw(next.message);
      }
      trace := trace + [Began(fiber)];
      PathKept(n0, heap.nodes, old(heap.rank), heap.rank, path);
      ChangesBelowNothing(n0, old(heap.rank), path[0]);
      PathEnds(heap.nodes, heap.rank, path);
      ChangesBelowStep(n0, n0, heap.nodes, old(heap.rank), heap.rank, path[0], fiber);
      if next.value.None? {
        ghost var n2 := heap.nodes;
        r := CompleteUnitOfWork(heap, host, fiber, path);
        ChangesBelowStep(n0, n2, heap.nodes, heap.rank, heap.rank, path[0], path[0]);
      } else {
        PathExtend(heap.nodes, heap.rank, path, next.value.value);
        workInProgress := next.value;
        r := Ok(());
      }
    }

    /**
     * `workLoop()`: units of work until `workInProgress` is null, starting
     * from a fiber without a `return`. `path` is the path begun; when the
     * loop ends normally every fiber on it was begun top-down and then
     * completed bottom-up. A throw leaves `workInProgress` set.
     */
    method RunWorkLoop(heap: FiberHeap, host: Host) returns (r: Result<()>, ghost path: seq<FiberId>)
      requires heap.Valid()
      requires workInProgress.Some? ==>
        var w := workInProgress.value;
        w in heap.nodes && heap.nodes[w].ret == None && RootQueueOk(heap.nodes, w)
      modifies this, heap, host, if workInProgress.Some? then RootQueue(heap.nodes, workInProgress.value) else {}
      ensures heap.Valid() && Grew(heap)
      ensures old(workInProgress).None? ==>
        r.Ok? && path == [] && workInProgress == None && trace == old(trace) &&
        heap.nodes == old(heap.nodes) && host.log == old(host.log)
      ensures old(workInProgress).Some? ==>
        path != [] && path[0] == old(workInProgress).value && ChangesBelow(old(heap.nodes), heap.nodes, heap.rank, path[0])
      ensures r.Ok? ==> workInProgress == None && trace == old(trace) + Begins(path) + Completes(Upward(path))
      ensures r.Ok? ==> Descending(heap.rank, path)
      ensures r.Throw? ==> workInProgress.Some?
    {
      path := [];
      r := Ok(());
      ghost var start := workInProgress;
      while workInProgress.Some?
        invariant heap.Valid() && Grew(heap)
        invariant path == [] ==>
          heap.nodes == old(heap.nodes) && workInProgress == start && trace == old(trace) && host.log == old(host.log)
        invariant workInProgress.Some? ==>
          var w := workInProgress.value;
          && w in heap.nodes && PathOk(heap.nodes, heap.rank, path + [w]) && RootQueueOk(heap.nodes, w)
          && trace == old(trace) + Begins(path)
          && (path != [] ==> heap.nodes[w].tag != HostRoot)
        invariant workInProgress.None? ==>
          r.Ok? && trace == old(trace) + Begins(path) + Completes(Upward(path)) && Descending(heap.rank, path)
        invariant start.None? ==> path == []
        invariant path != [] ==> start.Some? && path[0] == start.value && ChangesBelow(old(heap.nodes), heap.nodes, heap.rank, path[0])
        decreases if workInProgress.Some? then 1 else 0,
                  if workInProgress.Some? && workInProgress.value in heap.nodes && heap.nodes[workInProgress.value].tag == HostRoot
                  then 1 else 0,
                  if workInProgress.Some? && workInProgress.value in heap.nodes
                  then Depth(heap.nodes[workInProgress.value].pendingProps) else 0
      {
        var fiber := workInProgress.value;
        ghost var n0 := heap.nodes;
        ghost var t0 := trace;
        if path == [] {
          assert PathOk(heap.nodes, heap.rank, [fiber]);
        }
        r := PerformUnitOfWork(heap, host, fiber, path + [fiber]);
        BeginsSnoc(old(trace), path, fiber);
        if path != [] {
          ChangesBelowStep(old(heap.nodes), n0, heap.nodes, heap.rank, heap.rank, path[0], path[0]);
        }
        path := path + [fiber];
        if r.Throw? {
          return;
        }
      }
    }

    /** `prepareFreshStack(root)`: `workInProgress` becomes the work-in-progress of `root.current`, with props `{}`. */
    method PrepareFreshStack(heap: FiberHeap, root: FiberRootNode)
      requires heap.Valid() && root.current in heap.nodes
      modifies this, heap
      ensures heap.Valid() && heap.Grows() && trace == old(trace)
      ensures workInProgress.Some? && workInProgress.value in heap.nodes
      ensures heap.rank[workInProgress.value] == heap.rank[root.current]
      ensures heap.nodes[root.current].alternate == workInProgress
      ensures heap.nodes == old(heap.nodes)[root.current := old(heap.nodes[root.current]).(alternate := workInProgress)]
                                           [workInProgress.value := WipRecord(old(heap.nodes), root.current, Obj(map[]))]
      ensures old(heap.nodes[root.current]).alternate.Some? ==> workInProgress == old(heap.nodes[root.current]).alternate
      ensures old(heap.nodes[root.current]).alternate.None? ==>
        workInProgress == Some(old(heap.nextId)) && old(heap.nextId) !in old(heap.nodes)
    {
      var wip := CreateWorkInProgress(heap, root.current, Obj(map[]));
      workInProgress := Some(wip);
    }

    /** `prepareFreshStack(root)` on a root whose current fiber is a host root: its work-in-progress is a host root too. */
    method PrepareRootStack(heap: FiberHeap, root: FiberRootNode) returns (ghost finished: FiberId)
      requires heap.Valid() && root.current in heap.nodes && heap.nodes[root.current].tag == HostRoot
      requires RootQueueOk(heap.nodes, root.current)
      modifies this, heap
      ensures heap.Valid() && heap.Grows() && trace == old(trace)
      ensures workInProgress == Some(finished) && finished in heap.nodes && heap.nodes[finished].ret == None
      ensures heap.rank[finished] == heap.rank[root.current] && heap.nodes[root.current].alternate == Some(finished)
      ensures RootQueueOk(heap.nodes, finished) && RootQueue(heap.nodes, finished) == RootQueue(old(heap.nodes), root.current)
      ensures old(heap.nodes[root.current]).alternate.Some? ==> finished == old(heap.nodes[root.current]).alternate.value
      ensures old(heap.nodes[root.current]).alternate.None? ==> finished == old(heap.nextId) && finished !in old(heap.nodes)
    {
      assert NodeOk(heap.nodes, heap.rank, heap.maxRank, heap.nextId, heap.roots, root.current);
      PrepareFreshStack(heap, root);
      finished := workInProgress.value;
      assert NodeOk(heap.nodes, heap.rank, heap.maxRank, heap.nextId, heap.roots, finished);
    }

    /**
     * The `do { try { workLoop(); break; } catch { workInProgress = null; } }`
     * loop of `renderRoot`, from the fresh work-in-progress `finished` of a
     * host root. It ends with `workInProgress` null; `rendered` and `path`
     * are the outcome of the first run and the path it began.
     */
    method RetryWorkLoop(heap: FiberHeap, host: Host, ghost finished: FiberId)
      returns (ghost rendered: Result<()>, ghost path: seq<FiberId>)
      requires heap.Valid() && workInProgress == Some(finished) && finished in heap.nodes
      requires heap.nodes[finished].ret == None && RootQueueOk(heap.nodes, finished)
      modifies this, heap, host, RootQueue(heap.nodes, finished)
      ensures heap.Valid() && Grew(heap) && workInProgress == None
      ensures path != [] && path[0] == finished && ChangesBelow(old(heap.nodes), heap.nodes, heap.rank, finished)
      ensures rendered.Ok? ==> trace == old(trace) + Begins(path) + Completes(Upward(path))
    {
      var retrying := true;
      ghost var first := true;
      rendered := Ok(());
      path := [finished];
      while retrying
        invariant heap.Valid() && Grew(heap)
        invariant first ==>
          retrying && workInProgress == Some(finished) && heap.nodes == old(heap.nodes) && trace == old(trace) &&
          RootQueueOk(heap.nodes, finished)
        invariant !first ==>
          workInProgress == None && path != [] && path[0] == finished &&
          ChangesBelow(old(heap.nodes), heap.nodes, heap.rank, finished)
        invariant !first && rendered.Ok? ==> trace == old(trace) + Begins(path) + Completes(Upward(path))
        decreases (if retrying then 1 else 0) + (if workInProgress.Some? then 1 else 0)
      {
        ghost var n2 := heap.nodes;
        var res;
        ghost var p;
        res, p := RunWorkLoop(heap, host);
        if first {
          rendered, path, first := res, p, false;
        } else {
          ChangesBelowStep(old(heap.nodes), n2, heap.nodes, heap.rank, heap.rank, finished, finished);
        }
        if res.Ok? {
          retrying := false;
        } else {
          workInProgress := None;
        }
      }
    }

    /**
     * `renderRoot(root)`: a fresh work-in-progress for `root.current`, the
     * work loop until it ends without a throw, then `root.current.alternate`
     * becomes `finishedWork` and is committed. `finished` is that
     * work-in-progress; `rendered` and `path` are the first run's outcome
     * and the path it began.
     */
    method RenderRoot(heap: FiberHeap, host: Host, root: FiberRootNode)
      returns (r: Result<()>, ghost finished: FiberId, ghost rendered: Result<()>, ghost path: seq<FiberId>)
      requires heap.Valid() && root.current in heap.nodes && heap.nodes[root.current].tag == HostRoot
      requires RootQueueOk(heap.nodes, root.current)
      modifies this, heap, host, root, RootQueue(heap.nodes, root.current)
      ensures heap.Valid() && Grew(heap) && workInProgress == None
      ensures root.finishedWork == None && ScheduleKept(root)
      ensures old(heap.nodes[root.current]).alternate.Some? ==> finished == old(heap.nodes[root.current]).alternate.value
      ensures old(heap.nodes[root.current]).alternate.None? ==> finished == old(heap.nextId) && finished !in old(heap.nodes)
      ensures path != [] && path[0] == finished
      ensures rendered.Ok? ==> trace == old(trace) + Begins(path) + Completes(Upward(path))
      ensures r.Ok? ==> root.current == finished
      ensures r.Throw? ==> root.current == old(root.current)
    {
      ghost var cur := root.current;
      finished := PrepareRootStack(heap, root);
      rendered, path := RetryWorkLoop(heap, host, finished);
      assert cur == finished || heap.rank[cur] <= heap.rank[finished];
      assert heap.nodes[root.current].alternate == Some(finished);
      r := FinishAndCommit(heap, host, root);
    }
  
    /**
     * `scheduleUpdateOnFiber(fiber)`: renders and commits the root found
     * from `fiber`. Without one `renderRoot(null)` fails reading
     * `current`, before anything changes.
     */
    method ScheduleUpdateOnFiber(heap: FiberHeap, host: Host, fiber: FiberId)
      returns (r: Result<()>, ghost finished: FiberId, ghost rendered: Result<()>, ghost path: seq<FiberId>)
      requires heap.Valid() && RootsOk(heap) && fiber in heap.nodes
      requires forall root :: root in heap.roots ==> RootQueueOk(heap.nodes, root.current)
      modifies this, heap, host, heap.roots, RootQueues(heap)
      ensures heap.Valid() && Grew(heap)
      ensures Scheduled(this, heap, host, fiber, r, finished, rendered, path)
    {
      var root := MarkUpdateFromFiberToRoot(heap, fiber);
      if root.None? {
        finished, rendered, path := 0, Ok(()), [];
        return Throw(CurrentOfNull), finished, rendered, path;
      }
      var rt := root.value;
      assert RootQueue(heap.nodes, rt.current) <= RootQueues(heap);
      r, finished, rendered, path := RenderRoot(heap, host, rt);
    }
  }
}
