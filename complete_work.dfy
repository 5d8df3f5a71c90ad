/**
 * The "complete" half of a unit of work
 * (packages/react-reconciler/src/completeWork.ts): host fibers being
 * mounted get their host instance, with the topmost host descendant
 * appended to it; host fibers being updated are marked; and every handled
 * fiber collects its child's flags into `subtreeFlags`.
 */
module CompleteWorks {
  import opened Wrappers
  import opened ReactTypes
  import opened Lanes
  import opened FiberFlags
  import opened WorkTags
  import opened HostConfig
  import opened Fibers
  import opened ChildFibers
  import opened HostPaths

  /** `markUpdate(fiber)`: adds the Update flag and changes nothing else. */
  method MarkUpdate(heap: FiberHeap, fiber: FiberId)
    requires heap.Valid() && fiber in heap.nodes
    modifies heap
    ensures heap.nodes == old(heap.nodes)[fiber := old(heap.nodes[fiber]).(flags := AddFlags(old(heap.nodes[fiber].flags), Update))]
    ensures heap.Valid() && heap.SameShape()
  {
    var f := heap.nodes[fiber];
    heap.Update(fiber, f.(flags := AddFlags(f.flags, Update)));
  }

  /** `subtreeFlags |= child.subtreeFlags; subtreeFlags |= child.flags` over a chain of children. */
  function ChildFlags(nodes: map<FiberId, Fiber>, chain: seq<FiberId>): Flags
    decreases |chain|
  {
    if chain == [] then NoFlags
    else
      var acc := ChildFlags(nodes, chain[..|chain| - 1]);
      var c := chain[|chain| - 1];
      if c in nodes then AddFlags(AddFlags(acc, nodes[c].subtreeFlags), nodes[c].flags) else acc
  }

  /** Whether a child of the chain has bit `i` in its `flags` or `subtreeFlags`. */
  ghost predicate SomeChildHas(nodes: map<FiberId, Fiber>, chain: seq<FiberId>, i: bv32)
    requires i < 32
  {
    exists k :: 0 <= k < |chain| && chain[k] in nodes &&
      (HasBit(nodes[chain[k]].flags, i) || HasBit(nodes[chain[k]].subtreeFlags, i))
  }

  /** A bit is in the bubbled flags exactly when some child has it in its `flags` or `subtreeFlags`. */
  lemma {:induction false} ChildFlagsBits(nodes: map<FiberId, Fiber>, chain: seq<FiberId>, i: bv32)
    requires i < 32
    ensures HasBit(ChildFlags(nodes, chain), i) <==> SomeChildHas(nodes, chain, i)
    decreases |chain|
  {
    if chain == [] {
      assert !HasBit(NoFlags, i);
    } else {
      var init := chain[..|chain| - 1];
      var last := |chain| - 1;
      ChildFlagsBits(nodes, init, i);
      if SomeChildHas(nodes, init, i) {
        var k :| 0 <= k < |init| && init[k] in nodes &&
          (HasBit(nodes[init[k]].flags, i) || HasBit(nodes[init[k]].subtreeFlags, i));
        assert chain[k] == init[k];
      }
      if SomeChildHas(nodes, chain, i) {
        var k :| 0 <= k < |chain| && chain[k] in nodes &&
          (HasBit(nodes[chain[k]].flags, i) || HasBit(nodes[chain[k]].subtreeFlags, i));
        if k < last {
          assert init[k] == chain[k];
        }
      }
    }
  }

  /** `child.return = returnFiber` for every fiber of a chain. */
  function SetReturns(m: map<FiberId, Fiber>, chain: seq<FiberId>, returnFiber: FiberId): map<FiberId, Fiber>
    decreases |chain|
  {
    if chain == [] then m
    else
      var m1 := SetReturns(m, chain[..|chain| - 1], returnFiber);
      var c := chain[|chain| - 1];
      if c in m1 then m1[c := m1[c].(ret := Some(returnFiber))] else m1
  }

  /** The arena after `bubbleProperties(wip)`. */
  ghost function Bubbled(m: map<FiberId, Fiber>, wip: FiberId): map<FiberId, Fiber>
    requires wip in m
  {
    var chain := Chain(m[wip].child);
    var m1 := SetReturns(m, chain, wip);
    m1[wip := m[wip].(subtreeFlags := ChildFlags(m, chain))]
  }

  /**
   * `bubbleProperties(wip)`: `subtreeFlags` becomes the union of the
   * children's flags and subtree flags (replacing what it held), and every
   * child gets `wip` as its `return`.
   */
  method BubbleProperties(heap: FiberHeap, wip: FiberId)
    requires heap.Valid() && wip in heap.nodes
    modifies heap
    ensures heap.nodes == Bubbled(old(heap.nodes), wip)
    ensures heap.nodes[wip].ret == old(heap.nodes[wip].ret)
    ensures heap.Valid() && heap.SameShape()
  {
    var subtreeFlags := NoFlags;
    var child := heap.nodes[wip].child;
    ghost var chain := Chain(child);
    ghost var done: seq<FiberId> := [];
    assert NodeOk(heap.nodes, heap.rank, heap.maxRank, heap.nextId, heap.roots, wip);
    while child.Some?
      invariant heap.Valid() && heap.SameShape() && wip in heap.nodes
      invariant heap.nodes[wip] == old(heap.nodes[wip])
      invariant child.Some? ==>
        && done == [] && chain == [child.value] && heap.nodes == old(heap.nodes)
        && child.value in heap.nodes && heap.rank[child.value] > heap.rank[wip]
        && heap.nodes[child.value].tag != HostRoot
      invariant child.None? ==> chain == done
      invariant heap.nodes == SetReturns(old(heap.nodes), done, wip)
      invariant subtreeFlags == ChildFlags(old(heap.nodes), done)
      decreases if child.Some? then 1 else 0
    {
      var c := child.value;
      var f := heap.nodes[c];
      assert NodeOk(heap.nodes, heap.rank, heap.maxRank, heap.nextId, heap.roots, c);
      subtreeFlags := AddFlags(subtreeFlags, f.subtreeFlags);
      subtreeFlags := AddFlags(subtreeFlags, f.flags);
      SetReturn(heap, c, wip);
      child := f.sibling;
      done := done + [c];
      assert done[..0] == [];
    }
    var w := heap.nodes[wip];
    heap.Update(wip, w.(subtreeFlags := subtreeFlags));
  }

  /** Two arenas with the same nodes whose records differ at most in `return`. */
  ghost predicate OnlyRetsDiffer(n1: map<FiberId, Fiber>, n2: map<FiberId, Fiber>) {
    n1.Keys == n2.Keys && forall k :: k in n1 ==> n2[k] == n1[k].(ret := n2[k].ret)
  }

  /**
   * The descent of `appendAllChildren` from `id`: the arena after
   * `node.child.return = node` at each fiber passed, and the
   * `appendInitialChild` calls made (one, for the host fiber the descent
   * stops at, if it stops at one). The rank guards hold in a valid arena.
   */
  ghost function Descent(m: map<FiberId, Fiber>, rank: map<FiberId, nat>, bound: nat, parent: HostValue, id: FiberId)
    : (map<FiberId, Fiber>, seq<HostOp>)
    decreases if id in rank && rank[id] <= bound then bound - rank[id] + 1 else 0
  {
    if id !in m || id !in rank || rank[id] > bound then (m, [])
    else if IsHostTag(m[id].tag) then (m, [AppendInitialChild(parent, HostValueOf(m[id].stateNode))])
    else match m[id].child
      case None => (m, [])
      case Some(c) =>
        if c in m && c in rank && rank[id] < rank[c]
        then Descent(m[c := m[c].(ret := Some(id))], rank, bound, parent, c)
        else (m, [])
  }

  /** The descent of `appendAllChildren(parent, wip)`, from the child of `wip`. */
  ghost function ChildDescent(m: map<FiberId, Fiber>, rank: map<FiberId, nat>, bound: nat, parent: HostValue, wip: FiberId)
    : (map<FiberId, Fiber>, seq<HostOp>)
    requires wip in m
  {
    match m[wip].child
    case None => (m, [])
    case Some(c) => Descent(m, rank, bound, parent, c)
  }

  /** The descent changes `return` links only. */
  lemma {:induction false} DescentRets(m: map<FiberId, Fiber>, rank: map<FiberId, nat>, bound: nat, parent: HostValue,
                                       id: FiberId)
    ensures OnlyRetsDiffer(m, Descent(m, rank, bound, parent, id).0)
    decreases if id in rank && rank[id] <= bound then bound - rank[id] + 1 else 0
  {
    if id in m && id in rank && rank[id] <= bound && !IsHostTag(m[id].tag) && m[id].child.Some? {
      var c := m[id].child.value;
      if c in m && c in rank && rank[id] < rank[c] {
        var m1 := m[c := m[c].(ret := Some(id))];
        DescentRets(m1, rank, bound, parent, c);
        var m2 := Descent(m1, rank, bound, parent, c).0;
        forall k | k in m ensures m2[k] == m[k].(ret := m2[k].ret) {
          assert m2[k] == m1[k].(ret := m2[k].ret);
        }
      }
    }
  }

  /**
   * The descent appends exactly the instance of the host fiber the walk
   * down `child` links ends at: the topmost host descendant
   * (`HostPathShape`), and nothing when the walk ends at a leaf. `m1` is the
   * arena part-way through the descent, whose `return` links may differ.
   */
  lemma {:induction false} DescentAppends(m: map<FiberId, Fiber>, m1: map<FiberId, Fiber>, rank: map<FiberId, nat>,
                                          bound: nat, parent: HostValue, id: FiberId)
    requires OnlyRetsDiffer(m, m1)
    ensures Descent(m1, rank, bound, parent, id).1 ==
      match HostEnd(m, HostPath(m, rank, bound, id))
      case None => []
      case Some(h) => [AppendInitialChild(parent, HostValueOf(m[h].stateNode))]
    decreases if id in rank && rank[id] <= bound then bound - rank[id] + 1 else 0
  {
    if id in m && id in rank && rank[id] <= bound {
      assert m1[id] == m[id].(ret := m1[id].ret);
      if !IsHostTag(m[id].tag) && m[id].child.Some? {
        var c := m[id].child.value;
        if c in m && c in rank && rank[id] < rank[c] {
          var m2 := m1[c := m1[c].(ret := Some(id))];
          RetsStep(m, m1, c, Some(id));
          DescentAppends(m, m2, rank, bound, parent, c);
          HostEndCons(m, id, HostPath(m, rank, bound, c));
        }
      }
    }
  }

  /** Setting one more `return` link keeps the other fields. */
  lemma RetsStep(m: map<FiberId, Fiber>, m1: map<FiberId, Fiber>, c: FiberId, r: Option<FiberId>)
    requires OnlyRetsDiffer(m, m1) && c in m1
    ensures OnlyRetsDiffer(m, m1[c := m1[c].(ret := r)])
  {
    var m2 := m1[c := m1[c].(ret := r)];
    forall k | k in m ensures m2[k] == m[k].(ret := m2[k].ret) {
      assert m1[k] == m[k].(ret := m1[k].ret);
    }
  }

  /**
   * `appendAllChildren(parent, wip)`: walks down from the child of `wip`,
   * pointing each child's `return` at the fiber above it, appends the first
   * host fiber's instance to `parent`, then climbs back without effect.
   */
  method AppendAllChildren(heap: FiberHeap, host: Host, parent: HostValue, wip: FiberId)
    requires heap.Valid() && wip in heap.nodes
    modifies heap, host
    ensures heap.Valid() && heap.SameShape()
    ensures var d := ChildDescent(old(heap.nodes), heap.rank, heap.maxRank, parent, wip);
      heap.nodes == d.0 && host.log == old(host.log) + d.1
    ensures heap.nodes[wip] == old(heap.nodes[wip])
    ensures host.nextHandle == old(host.nextHandle)
  {
    var node := heap.nodes[wip].child;
    if node.None? {
      return;
    }
    assert NodeOk(heap.nodes, heap.rank, heap.maxRank, heap.nextId, heap.roots, wip);
    var last := Descend(heap, host, parent, node.value, wip);
    if last == wip {
      return;
    }
    var top := ClimbBack(heap, last, wip);
  }

  /**
   * The descent of `appendAllChildren` from `start`, the child of `wip`;
   * returns the fiber it stopped at.
   */
  method Descend(heap: FiberHeap, host: Host, parent: HostValue, start: FiberId, ghost wip: FiberId)
    returns (cur: FiberId)
    requires heap.Valid() && start in heap.nodes && wip in heap.nodes && heap.rank[start] > heap.rank[wip]
    modifies heap, host
    ensures heap.Valid() && heap.SameShape() && host.nextHandle == old(host.nextHandle)
    ensures var d := Descent(old(heap.nodes), heap.rank, heap.maxRank, parent, start);
      heap.nodes == d.0 && host.log == old(host.log) + d.1
    ensures heap.nodes[wip] == old(heap.nodes[wip])
    ensures cur in heap.nodes && heap.rank[cur] > heap.rank[wip]
  {
    cur := start;
    ghost var d := Descent(heap.nodes, heap.rank, heap.maxRank, parent, start);
    assert NodeOk(heap.nodes, heap.rank, heap.maxRank, heap.nextId, heap.roots, start);
    var done := false;
    while !done
      invariant heap.Valid() && heap.SameShape() && host.nextHandle == old(host.nextHandle)
      invariant cur in heap.nodes && heap.rank[wip] < heap.rank[cur] <= heap.maxRank
      invariant wip in heap.nodes && heap.nodes[wip] == old(heap.nodes[wip])
      invariant !done ==> Descent(heap.nodes, heap.rank, heap.maxRank, parent, cur) == d && host.log == old(host.log)
      invariant done ==> heap.nodes == d.0 && host.log == old(host.log) + d.1
      decreases !done, heap.maxRank - heap.rank[cur]
    {
      var next := DescendStep(heap, host, parent, cur);
      if next.Some? {
        cur := next.value;
      } else {
        done := true;
      }
    }
  }

  /**
   * One pass of the descent in `appendAllChildren`: a host fiber has its
   * instance appended and ends the descent; a fiber with a child points the
   * child's `return` at itself and the descent goes on to the child; a
   * leaf ends the descent.
   */
  method DescendStep(heap: FiberHeap, host: Host, parent: HostValue, node: FiberId) returns (next: Option<FiberId>)
    requires heap.Valid() && node in heap.nodes
    modifies heap, host
    ensures heap.Valid() && heap.SameShape() && host.nextHandle == old(host.nextHandle)
    ensures next.Some? ==>
      && next.value in old(heap.nodes) && heap.rank[node] < heap.rank[next.value] <= heap.maxRank
      && heap.nodes == old(heap.nodes)[next.value := old(heap.nodes[next.value]).(ret := Some(node))]
      && host.log == old(host.log)
      && Descent(old(heap.nodes), heap.rank, heap.maxRank, parent, node) ==
         Descent(heap.nodes, heap.rank, heap.maxRank, parent, next.value)
    ensures next.None? ==>
      var d := Descent(old(heap.nodes), heap.rank, heap.maxRank, parent, node);
      heap.nodes == old(heap.nodes) && heap.nodes == d.0 && host.log == old(host.log) + d.1
  {
    var f := heap.nodes[node];
    assert NodeOk(heap.nodes, heap.rank, heap.maxRank, heap.nextId, heap.roots, node);
    if f.tag == HostComponent || f.tag == HostText {
      host.AppendInitialChildOp(parent, HostValueOf(f.stateNode));
      next := None;
    } else if f.child.Some? {
      var c := f.child.value;
      assert NodeOk(heap.nodes, heap.rank, heap.maxRank, heap.nextId, heap.roots, c);
      SetReturn(heap, c, node);
      next := Some(c);
    } else {
      next := None;
    }
  }

  /**
   * The climb of `appendAllChildren` after the descent, which changes
   * nothing: `sibling` is always null, so it follows `return` until it is
   * null or `wip`.
   */
  method ClimbBack(heap: FiberHeap, node: FiberId, wip: FiberId) returns (top: FiberId)
    requires heap.Valid() && node in heap.nodes
    ensures top in heap.nodes && (heap.nodes[top].ret.None? || heap.nodes[top].ret == Some(wip))
    ensures heap.rank[top] <= heap.rank[node]
  {
    top := node;
    var climbing := true;
    assert NodeOk(heap.nodes, heap.rank, heap.maxRank, heap.nextId, heap.roots, top);
    while climbing && heap.nodes[top].sibling.None?
      invariant top in heap.nodes && heap.nodes[top].sibling.None? && heap.rank[top] <= heap.rank[node]
      invariant !climbing ==> heap.nodes[top].ret.None? || heap.nodes[top].ret == Some(wip)
      decreases climbing, heap.rank[top]
    {
      assert NodeOk(heap.nodes, heap.rank, heap.maxRank, heap.nextId, heap.roots, top);
      var r := heap.nodes[top].ret;
      if r.None? || r == Some(wip) {
        climbing := false;
      } else {
        top := r.value;
        assert NodeOk(heap.nodes, heap.rank, heap.maxRank, heap.nextId, heap.roots, top);
      }
    }
  }

  /** `wip.stateNode = instance`. */
  method SetStateNode(heap: FiberHeap, wip: FiberId, s: StateNode)
    requires heap.Valid() && wip in heap.nodes && StateFits(heap.nodes[wip].tag, s) && !s.RootNode?
    modifies heap
    ensures heap.nodes == old(heap.nodes)[wip := old(heap.nodes[wip]).(stateNode := s)]
    ensures heap.Valid() && heap.SameShape()
  {
    assert NodeOk(heap.nodes, heap.rank, heap.maxRank, heap.nextId, heap.roots, wip);
    heap.Set(wip, heap.nodes[wip].(stateNode := s));
  }

  /** Whether `wip` is being updated: `current !== null && wip.stateNode`. */
  predicate Updating(f: Fiber) {
    f.alternate.Some? && !f.stateNode.NoStateNode?
  }

  /**
   * The effect of completing a host component: an update only adds the
   * Update flag; a mount creates an instance with `wip.type` and the new
   * props, appends the topmost host descendant to it and stores it in
   * `stateNode`. Either way the flags are then bubbled.
   */
  ghost predicate ComponentCompleted(nodes0: map<FiberId, Fiber>, rank: map<FiberId, nat>, bound: nat,
                                     log0: seq<HostOp>, handle0: nat, wip: FiberId,
                                     nodes: map<FiberId, Fiber>, log: seq<HostOp>, handle: nat)
    requires wip in nodes0
  {
    var f := nodes0[wip];
    if Updating(f) then
      log == log0 && handle == handle0 &&
      nodes == Bubbled(nodes0[wip := f.(flags := AddFlags(f.flags, Update))], wip)
    else
      var d := ChildDescent(nodes0, rank, bound, Handle(handle0), wip);
      var m := d.0;
      handle == handle0 + 1 &&
      log == log0 + [CreateInstance(handle0, f.elementType, f.pendingProps)] + d.1 &&
      wip in m && nodes == Bubbled(m[wip := m[wip].(stateNode := Instance(handle0))], wip)
  }

  /** The `HostComponent` case of `completeWork`. */
  method CompleteHostComponent(heap: FiberHeap, host: Host, wip: FiberId)
    requires heap.Valid() && wip in heap.nodes && heap.nodes[wip].tag == HostComponent
    modifies heap, host
    ensures heap.Valid() && heap.SameShape()
    ensures ComponentCompleted(old(heap.nodes), heap.rank, heap.maxRank, old(host.log), old(host.nextHandle), wip,
                               heap.nodes, host.log, host.nextHandle)
    ensures wip in heap.nodes && heap.nodes[wip].ret == old(heap.nodes[wip].ret)
  {
    var f := heap.nodes[wip];
    if f.alternate.Some? && !f.stateNode.NoStateNode? {
      MarkUpdate(heap, wip);
    } else {
      var instance := host.CreateInstanceOp(f.elementType, f.pendingProps);
      ghost var log1 := host.log;
      AppendAllChildren(heap, host, Handle(instance), wip);
      assert host.log == log1 + ChildDescent(old(heap.nodes), heap.rank, heap.maxRank, Handle(instance), wip).1;
      SetStateNode(heap, wip, Instance(instance));
    }
    BubbleProperties(heap, wip);
  }

  /**
   * The effect of completing a host text: an update reads
   * `current.memoizedProps.content` and `newProps.content` (either read
   * throws on null or undefined props) and adds the Update flag exactly when
   * they differ; a mount creates a text instance from `newProps?.content`.
   * The flags are then bubbled.
   */
  ghost predicate TextCompleted(nodes0: map<FiberId, Fiber>, log0: seq<HostOp>, handle0: nat, wip: FiberId,
                                r: Result<()>, nodes: map<FiberId, Fiber>, log: seq<HostOp>, handle: nat)
    requires wip in nodes0
    requires nodes0[wip].alternate.Some? ==> nodes0[wip].alternate.value in nodes0
  {
    var f := nodes0[wip];
    if Updating(f) then
      var oldText := Get(nodes0[f.alternate.value].memoizedProps, "content");
      var newText := Get(f.pendingProps, "content");
      log == log0 && handle == handle0 &&
      (r.Throw? <==> oldText.Throw? || newText.Throw?) &&
      (r.Throw? ==> nodes == nodes0) &&
      (r.Ok? ==>
        var marked := if oldText.value != newText.value then f.(flags := AddFlags(f.flags, Update)) else f;
        nodes == Bubbled(nodes0[wip := marked], wip))
    else
      r.Ok? && handle == handle0 + 1 &&
      log == log0 + [CreateTextInstance(handle0, GetOptional(f.pendingProps, "content"))] &&
      nodes == Bubbled(nodes0[wip := f.(stateNode := Instance(handle0))], wip)
  }

  /** The `HostText` case of `completeWork`. */
  method CompleteHostText(heap: FiberHeap, host: Host, wip: FiberId) returns (r: Result<()>)
    requires heap.Valid() && wip in heap.nodes && heap.nodes[wip].tag == HostText
    requires heap.nodes[wip].alternate.Some? ==> heap.nodes[wip].alternate.value in heap.nodes
    modifies heap, host
    ensures heap.Valid() && heap.SameShape()
    ensures TextCompleted(old(heap.nodes), old(host.log), old(host.nextHandle), wip, r, heap.nodes, host.log, host.nextHandle)
    ensures wip in heap.nodes && heap.nodes[wip].ret == old(heap.nodes[wip].ret)
  {
    var f := heap.nodes[wip];
    if f.alternate.Some? && !f.stateNode.NoStateNode? {
      var oldText := Get(heap.nodes[f.alternate.value].memoizedProps, "content");
      if oldText.Throw? {
        return Throw(oldText.message);
      }
      var newText := Get(f.pendingProps, "content");
      if newText.Throw? {
        return Throw(newText.message);
      }
      if oldText.value != newText.value {
        MarkUpdate(heap, wip);
      } else {
        UpdateSame(heap.nodes, wip);
      }
    } else {
      var instance := host.CreateTextInstanceOp(GetOptional(f.pendingProps, "content"));
      SetStateNode(heap, wip, Instance(instance));
    }
    BubbleProperties(heap, wip);
    r := Ok(());
  }

  /**
   * `completeWork(wip)`: host components and host texts as above; host
   * roots, fragments and function components only bubble their flags; any
   * other tag is left alone.
   */
  method CompleteWork(heap: FiberHeap, host: Host, wip: FiberId) returns (r: Result<()>)
    requires heap.Valid() && wip in heap.nodes
    modifies heap, host
    ensures heap.Valid() && heap.SameShape()
    ensures wip in heap.nodes && heap.nodes[wip].ret == old(heap.nodes[wip].ret)
    ensures old(heap.nodes[wip].tag) == HostComponent ==>
      r.Ok? &&
      ComponentCompleted(old(heap.nodes), heap.rank, heap.maxRank, old(host.log), old(host.nextHandle), wip,
                         heap.nodes, host.log, host.nextHandle)
    ensures old(heap.nodes[wip].tag) == HostText ==>
      old(heap.nodes[wip].alternate).Some? ==> old(heap.nodes[wip].alternate).value in old(heap.nodes)
    ensures old(heap.nodes[wip].tag) == HostText ==>
      TextCompleted(old(heap.nodes), old(host.log), old(host.nextHandle), wip, r, heap.nodes, host.log, host.nextHandle)
    ensures old(heap.nodes[wip].tag) in {HostRoot, Fragment, FunctionComponent} ==>
      r.Ok? && heap.nodes == Bubbled(old(heap.nodes), wip) && host.log == old(host.log) && host.nextHandle == old(host.nextHandle)
    ensures !IsHostTag(old(heap.nodes[wip].tag)) && old(heap.nodes[wip].tag) !in {HostRoot, Fragment, FunctionComponent} ==>
      r.Ok? && heap.nodes == old(heap.nodes) && host.log == old(host.log) && host.nextHandle == old(host.nextHandle)
    ensures ChangesBelow(old(heap.nodes), heap.nodes, heap.rank, wip)
  {
    var tag := heap.nodes[wip].tag;
    assert NodeOk(heap.nodes, heap.rank, heap.maxRank, heap.nextId, heap.roots, wip);
    if tag == HostComponent {
      CompleteHostComponent(heap, host, wip);
      ComponentBelow(old(heap.nodes), heap.rank, heap.maxRank, old(host.log), old(host.nextHandle), wip,
                     heap.nodes, host.log, host.nextHandle);
      r := Ok(());
    } else if tag == HostText {
      r := CompleteHostText(heap, host, wip);
      TextBelow(old(heap.nodes), heap.rank, old(host.log), old(host.nextHandle), wip, r, heap.nodes, host.log,
                host.nextHandle);
    } else if tag == HostRoot || tag == Fragment || tag == FunctionComponent {
      BubbleProperties(heap, wip);
      BubbledBelow(old(heap.nodes), heap.rank, wip);
      r := Ok(());
    } else {
      r := Ok(());
    }
  }

  /** Setting the `return` of the fibers of `chain` leaves every other fiber alone. */
  lemma {:induction false} SetReturnsOutside(m: map<FiberId, Fiber>, chain: seq<FiberId>, returnFiber: FiberId)
    ensures SetReturns(m, chain, returnFiber).Keys == m.Keys
    ensures forall k :: k in m && k !in chain ==> SetReturns(m, chain, returnFiber)[k] == m[k]
    decreases |chain|
  {
    if chain != [] {
      SetReturnsOutside(m, chain[..|chain| - 1], returnFiber);
    }
  }

  /** `bubbleProperties(wip)` rewrites `wip` (never its links) and the `return` of its child. */
  lemma BubbledBelow(m: map<FiberId, Fiber>, rank: map<FiberId, nat>, wip: FiberId)
    requires wip in m && wip in rank
    requires m[wip].child.Some? ==> m[wip].child.value in rank && rank[m[wip].child.value] > rank[wip]
    ensures ChangesBelow(m, Bubbled(m, wip), rank, wip)
  {
    SetReturnsOutside(m, Chain(m[wip].child), wip);
  }

  /** The descent from a fiber below rank `r` leaves every fiber of rank at most `r` alone. */
  lemma {:induction false} DescentBelow(m: map<FiberId, Fiber>, rank: map<FiberId, nat>, bound: nat, parent: HostValue,
                                        id: FiberId, r: nat)
    requires id in rank ==> rank[id] > r
    ensures var d := Descent(m, rank, bound, parent, id).0;
      d.Keys == m.Keys && forall k :: k in m && k in rank && rank[k] <= r ==> d[k] == m[k]
    decreases if id in rank && rank[id] <= bound then bound - rank[id] + 1 else 0
  {
    if id in m && id in rank && rank[id] <= bound && !IsHostTag(m[id].tag) && m[id].child.Some? {
      var c := m[id].child.value;
      if c in m && c in rank && rank[id] < rank[c] {
        DescentBelow(m[c := m[c].(ret := Some(id))], rank, bound, parent, c, r);
      }
    }
  }

  /** Completing a host component touches `wip` and what lies below it. */
  lemma ComponentBelow(nodes0: map<FiberId, Fiber>, rank: map<FiberId, nat>, bound: nat, log0: seq<HostOp>, handle0: nat,
                       wip: FiberId, nodes: map<FiberId, Fiber>, log: seq<HostOp>, handle: nat)
    requires wip in nodes0 && wip in rank
    requires nodes0[wip].child.Some? ==> nodes0[wip].child.value in rank && rank[nodes0[wip].child.value] > rank[wip]
    requires ComponentCompleted(nodes0, rank, bound, log0, handle0, wip, nodes, log, handle)
    ensures ChangesBelow(nodes0, nodes, rank, wip)
  {
    var f := nodes0[wip];
    if Updating(f) {
      var m1 := nodes0[wip := f.(flags := AddFlags(f.flags, Update))];
      ChangesBelowUpdate(nodes0, rank, wip, m1[wip]);
      BubbledBelow(m1, rank, wip);
      ChangesBelowTrans(nodes0, m1, nodes, rank, wip);
    } else {
      var d := ChildDescent(nodes0, rank, bound, Handle(handle0), wip);
      if f.child.Some? {
        DescentBelow(nodes0, rank, bound, Handle(handle0), f.child.value, rank[wip]);
      }
      assert ChangesBelow(nodes0, d.0, rank, wip);
      var m2 := d.0[wip := d.0[wip].(stateNode := Instance(handle0))];
      ChangesBelowUpdate(d.0, rank, wip, m2[wip]);
      BubbledBelow(m2, rank, wip);
      ChangesBelowTrans(nodes0, d.0, m2, rank, wip);
      ChangesBelowTrans(nodes0, m2, nodes, rank, wip);
    }
  }

  /** Completing a host text touches `wip` and what lies below it. */
  lemma TextBelow(nodes0: map<FiberId, Fiber>, rank: map<FiberId, nat>, log0: seq<HostOp>, handle0: nat, wip: FiberId,
                  r: Result<()>, nodes: map<FiberId, Fiber>, log: seq<HostOp>, handle: nat)
    requires wip in nodes0 && wip in rank
    requires nodes0[wip].alternate.Some? ==> nodes0[wip].alternate.value in nodes0
    requires nodes0[wip].child.Some? ==> nodes0[wip].child.value in rank && rank[nodes0[wip].child.value] > rank[wip]
    requires TextCompleted(nodes0, log0, handle0, wip, r, nodes, log, handle)
    ensures ChangesBelow(nodes0, nodes, rank, wip)
  {
    var f := nodes0[wip];
    if Updating(f) && r.Ok? {
      var oldText := Get(nodes0[f.alternate.value].memoizedProps, "content");
      var newText := Get(f.pendingProps, "content");
      var marked := if oldText.value != newText.value then f.(flags := AddFlags(f.flags, Update)) else f;
      ChangesBelowUpdate(nodes0, rank, wip, marked);
      BubbledBelow(nodes0[wip := marked], rank, wip);
      ChangesBelowTrans(nodes0, nodes0[wip := marked], nodes, rank, wip);
    } else if !Updating(f) {
      var m1 := nodes0[wip := f.(stateNode := Instance(handle0))];
      ChangesBelowUpdate(nodes0, rank, wip, m1[wip]);
      BubbledBelow(m1, rank, wip);
      ChangesBelowTrans(nodes0, m1, nodes, rank, wip);
    }
  }

  /** An updated host component gains the Update flag and keeps every other flag. */
  lemma UpdateMarks(f: Fiber)
    ensures HasBit(AddFlags(f.flags, Update), 1)
    ensures forall i: bv32 :: i < 32 && i != 1 ==> (HasBit(AddFlags(f.flags, Update), i) <==> HasBit(f.flags, i))
  {
    forall i: bv32 | i < 32 && i != 1 ensures !HasBit(Update, i) { }
  }
}
