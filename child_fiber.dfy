/**
 * Single-child reconciliation (packages/react-reconciler/src/childFiber.ts).
 * `ChildReconciler(shouldTrackSideEffects)` is modelled by passing `track` to
 * every operation: `reconcileChildFibers` is the tracking reconciler and
 * `mountChildFibers` the other one.
 *
 * The old children are the sibling chain that starts at `currentFiber`. The
 * loops follow `sibling` as the source does; since every fiber of this
 * snapshot has a null `sibling` (see module `Fibers`), the chain holds at most
 * one fiber. What the loops decide is stated, for a chain of any length, by
 * `ElementPlan` and `TextPlan`.
 */
module ChildFibers {
  import opened Wrappers
  import opened ReactTypes
  import opened FiberFlags
  import opened WorkTags
  import opened Fibers

  /** The sibling chain starting at `start`: the fiber alone, as `sibling` is always null. */
  function Chain(start: Option<FiberId>): (chain: seq<FiberId>)
    ensures start.None? <==> chain == []
    ensures start.Some? ==> chain[0] == start.value
  {
    if start.Some? then [start.value] else []
  }

  /** `deleteChild(returnFiber, child)` with tracking on, on the record of `returnFiber`. */
  function AddDeletion(f: Fiber, child: FiberId): Fiber {
    match f.deletions
    case None => f.(deletions := Some([child]), flags := AddFlags(f.flags, ChildDeletion))
    case Some(ds) => f.(deletions := Some(ds + [child]))
  }

  /** `deleteChild` for each of `children` in order. */
  function AddDeletions(f: Fiber, children: seq<FiberId>): Fiber
    decreases |children|
  {
    if children == [] then f else AddDeletions(AddDeletion(f, children[0]), children[1..])
  }

  /** The record of `returnFiber` after deleting `children`; without tracking nothing changes. */
  function Deleted(track: bool, f: Fiber, children: seq<FiberId>): Fiber {
    if track then AddDeletions(f, children) else f
  }

  /** Deleting `a` and then `b` is deleting `a + b`. */
  lemma {:induction false} AddDeletionsAppend(f: Fiber, a: seq<FiberId>, b: seq<FiberId>)
    ensures AddDeletions(AddDeletions(f, a), b) == AddDeletions(f, a + b)
    decreases |a|
  {
    if a == [] {
      assert a + b == b;
    } else {
      AddDeletionsAppend(AddDeletion(f, a[0]), a[1..], b);
      assert (a + b)[0] == a[0] && (a + b)[1..] == a[1..] + b;
    }
  }

  /**
   * Deleting a non-empty list appends it to the list of deletions; the
   * ChildDeletion flag is added when the list is created, and later deletions
   * only append. No other field changes.
   */
  lemma {:induction false} AddDeletionsEffect(f: Fiber, children: seq<FiberId>)
    requires children != []
    ensures AddDeletions(f, children) ==
      f.(deletions := Some(f.deletions.GetOr([]) + children),
         flags := if f.deletions.None? then AddFlags(f.flags, ChildDeletion) else f.flags)
    decreases |children|
  {
    var g := AddDeletion(f, children[0]);
    if |children| == 1 {
      assert children[1..] == [];
      assert AddDeletions(f, children) == g;
      assert children == [children[0]];
      match f.deletions {
        case None =>
          assert f.deletions.GetOr([]) + children == [children[0]];
        case Some(ds) =>
          assert f.deletions.GetOr([]) + children == ds + [children[0]];
      }
    } else {
      AddDeletionsEffect(g, children[1..]);
      assert AddDeletions(f, children) == AddDeletions(g, children[1..]);
      assert children == [children[0]] + children[1..];
      if f.deletions.None? {
        assert [] + [children[0]] == [children[0]];
      }
      assert g.deletions == Some(f.deletions.GetOr([]) + [children[0]]);
      assert f.deletions.GetOr([]) + [children[0]] + children[1..] == f.deletions.GetOr([]) + children;
      assert g.flags == if f.deletions.None? then AddFlags(f.flags, ChildDeletion) else f.flags;
    }
  }

  /** Without tracking, deleting changes nothing; the first deletion creates `[child]` and sets ChildDeletion. */
  lemma DeletionCases(f: Fiber, child: FiberId)
    ensures Deleted(false, f, [child]) == f
    ensures f.deletions.None? ==>
      Deleted(true, f, [child]) == f.(deletions := Some([child]), flags := AddFlags(f.flags, ChildDeletion))
    ensures f.deletions.Some? ==> Deleted(true, f, [child]) == f.(deletions := Some(f.deletions.value + [child]))
  {
    assert [child][1..] == [];
    assert AddDeletions(f, [child]) == AddDeletion(f, child);
  }

  /** The heap facts the reconcilers need about an old child of `returnFiber`. */
  ghost predicate OldChild(heap: FiberHeap, returnFiber: FiberId, child: Option<FiberId>)
    reads heap
  {
    returnFiber in heap.nodes && heap.nodes.Keys == heap.rank.Keys &&
    (child.Some? ==>
      child.value in heap.nodes && heap.rank[child.value] > heap.rank[returnFiber] &&
      heap.nodes[child.value].tag != HostRoot)
  }

  /** `deleteChild(returnFiber, childToDelete)`. */
  method DeleteChild(heap: FiberHeap, track: bool, returnFiber: FiberId, childToDelete: FiberId)
    requires heap.Valid() && returnFiber in heap.nodes
    modifies heap
    ensures heap.nodes == old(heap.nodes)[returnFiber := Deleted(track, old(heap.nodes[returnFiber]), [childToDelete])]
    ensures heap.Valid() && heap.SameShape()
  {
    if !track {
      assert heap.nodes == heap.nodes[returnFiber := heap.nodes[returnFiber]];
      return;
    }
    var f := heap.nodes[returnFiber];
    DeletionCases(f, childToDelete);
    var deletions := f.deletions;
    var g;
    if deletions == None {
      g := f.(deletions := Some([childToDelete]), flags := f.flags | ChildDeletion);
    } else {
      g := f.(deletions := Some(deletions.value + [childToDelete]));
    }
    assert g == Deleted(track, f, [childToDelete]);
    heap.Update(returnFiber, g);
  }

  /** `deleteRemainingChildren(returnFiber, currentFirstFiber)`: every fiber of the chain, in sibling order. */
  method DeleteRemainingChildren(heap: FiberHeap, track: bool, returnFiber: FiberId, currentFirstFiber: Option<FiberId>)
    requires heap.Valid() && returnFiber in heap.nodes
    requires currentFirstFiber.Some? ==> currentFirstFiber.value in heap.nodes
    modifies heap
    ensures heap.nodes == old(heap.nodes)[returnFiber :=
      Deleted(track, old(heap.nodes[returnFiber]), Chain(currentFirstFiber))]
    ensures heap.Valid() && heap.SameShape()
  {
    if !track {
      assert heap.nodes == heap.nodes[returnFiber := heap.nodes[returnFiber]];
      return;
    }
    var childToDelete := currentFirstFiber;
    ghost var done: seq<FiberId> := [];
    assert heap.nodes == heap.nodes[returnFiber := AddDeletions(heap.nodes[returnFiber], done)];
    while childToDelete.Some?
      invariant heap.Valid() && heap.SameShape()
      invariant childToDelete.Some? ==> childToDelete.value in heap.nodes
      invariant done + Chain(childToDelete) == Chain(currentFirstFiber)
      invariant heap.nodes == old(heap.nodes)[returnFiber := AddDeletions(old(heap.nodes[returnFiber]), done)]
      decreases |Chain(childToDelete)|
    {
      var c := childToDelete.value;
      DeleteChild(heap, true, returnFiber, c);
      AddDeletionsAppend(old(heap.nodes[returnFiber]), done, [c]);
      done := done + [c];
      assert NodeOk(heap.nodes, heap.rank, heap.maxRank, heap.nextId, heap.roots, c);
      childToDelete := heap.nodes[c].sibling;
    }
  }

  /**
   * The decision of `reconcileSingleElement`'s loop over the old `chain`:
   * which old fiber is reused, if any, and which are deleted, in order.
   */
  datatype Plan = Plan(reuse: Option<FiberId>, toDelete: seq<FiberId>)

  function Prepend(done: seq<FiberId>, p: Plan): Plan {
    p.(toDelete := done + p.toDelete)
  }

  /**
   * `reconcileSingleElement`'s loop: an old fiber with another key is
   * deleted and the walk goes on; at the first one with the element's key the
   * walk stops, reusing it when the type matches (and deleting the rest of the
   * chain), deleting it and the rest otherwise, and deleting nothing more
   * when the element is not a React element.
   */
  function ElementPlan(nodes: map<FiberId, Fiber>, chain: seq<FiberId>, element: Value): (p: Plan)
    ensures p.reuse.Some? ==> p.reuse.value in nodes
    decreases |chain|
  {
    if chain == [] || chain[0] !in nodes then Plan(None, [])
    else
      var c := nodes[chain[0]];
      if c.key == GetOptional(element, "key") then
        if GetOptional(element, "$$typeof") == REACT_ELEMENT_TYPE then
          if c.elementType == GetOptional(element, "type") then Plan(Some(chain[0]), chain[1..])
          else Plan(None, chain)
        else Plan(None, [])
      else Prepend([chain[0]], ElementPlan(nodes, chain[1..], element))
  }

  /**
   * `reconcileSingleTextNode`'s loop: old fibers are deleted until the first
   * HostText, which is reused while the rest of the chain is deleted.
   */
  function TextPlan(nodes: map<FiberId, Fiber>, chain: seq<FiberId>): (p: Plan)
    ensures p.reuse.Some? ==> p.reuse.value in nodes
    decreases |chain|
  {
    if chain == [] || chain[0] !in nodes then Plan(None, [])
    else if nodes[chain[0]].tag == HostText then Plan(Some(chain[0]), chain[1..])
    else Prepend([chain[0]], TextPlan(nodes, chain[1..]))
  }

  /** With no old fiber of the element's key, every old fiber is deleted and none is reused. */
  lemma {:induction false} ElementPlanNoMatch(nodes: map<FiberId, Fiber>, chain: seq<FiberId>, element: Value)
    requires forall i :: 0 <= i < |chain| ==> chain[i] in nodes
    requires forall i :: 0 <= i < |chain| ==> nodes[chain[i]].key != GetOptional(element, "key")
    ensures ElementPlan(nodes, chain, element) == Plan(None, chain)
    decreases |chain|
  {
    if chain != [] {
      assert forall i :: 0 <= i < |chain[1..]| ==> chain[1..][i] == chain[i + 1];
      ElementPlanNoMatch(nodes, chain[1..], element);
      assert [chain[0]] + chain[1..] == chain;
    }
  }

  /**
   * At the first old fiber `chain[j]` with the element's key: the fibers
   * before it are deleted; then it is reused and the rest deleted when the
   * type matches, it and the rest are deleted when it does not, and nothing
   * more is deleted when the element is not a React element.
   */
  lemma {:induction false} ElementPlanFirstMatch(nodes: map<FiberId, Fiber>, chain: seq<FiberId>, element: Value,
                                                 j: nat)
    requires j < |chain| && forall i :: 0 <= i <= j ==> chain[i] in nodes
    requires forall i :: 0 <= i < j ==> nodes[chain[i]].key != GetOptional(element, "key")
    requires nodes[chain[j]].key == GetOptional(element, "key")
    ensures var p := ElementPlan(nodes, chain, element);
      if GetOptional(element, "$$typeof") != REACT_ELEMENT_TYPE then p == Plan(None, chain[..j])
      else if nodes[chain[j]].elementType == GetOptional(element, "type") then
        p == Plan(Some(chain[j]), chain[..j] + chain[j + 1..])
      else p == Plan(None, chain)
    decreases j
  {
    if j == 0 {
      assert chain[..0] == [] && chain[1..] == [] + chain[1..];
    } else {
      var rest := chain[1..];
      assert forall i :: 0 <= i < |rest| ==> rest[i] == chain[i + 1];
      ElementPlanFirstMatch(nodes, rest, element, j - 1);
      assert chain[..j] == [chain[0]] + rest[..j - 1];
      assert chain[j + 1..] == rest[j..];
      assert chain == [chain[0]] + rest;
    }
  }

  /** With no HostText among the old fibers, every one is deleted and none is reused. */
  lemma {:induction false} TextPlanNoText(nodes: map<FiberId, Fiber>, chain: seq<FiberId>)
    requires forall i :: 0 <= i < |chain| ==> chain[i] in nodes && nodes[chain[i]].tag != HostText
    ensures TextPlan(nodes, chain) == Plan(None, chain)
    decreases |chain|
  {
    if chain != [] {
      assert forall i :: 0 <= i < |chain[1..]| ==> chain[1..][i] == chain[i + 1];
      TextPlanNoText(nodes, chain[1..]);
      assert [chain[0]] + chain[1..] == chain;
    }
  }

  /** The first HostText `chain[j]` is reused; every other old fiber is deleted, in order. */
  lemma {:induction false} TextPlanFirstText(nodes: map<FiberId, Fiber>, chain: seq<FiberId>, j: nat)
    requires j < |chain| && forall i :: 0 <= i <= j ==> chain[i] in nodes
    requires forall i :: 0 <= i < j ==> nodes[chain[i]].tag != HostText
    requires nodes[chain[j]].tag == HostText
    ensures TextPlan(nodes, chain) == Plan(Some(chain[j]), chain[..j] + chain[j + 1..])
    decreases j
  {
    if j == 0 {
      assert chain[..0] == [] && chain[1..] == [] + chain[1..];
    } else {
      var rest := chain[1..];
      assert forall i :: 0 <= i < |rest| ==> rest[i] == chain[i + 1];
      TextPlanFirstText(nodes, rest, j - 1);
      assert chain[..j] == [chain[0]] + rest[..j - 1];
      assert chain[j + 1..] == rest[j..];
    }
  }

  /** The fiber a plan reuses is one of the old chain. */
  lemma {:induction false} ElementPlanReusesChain(nodes: map<FiberId, Fiber>, chain: seq<FiberId>, element: Value)
    ensures ElementPlan(nodes, chain, element).reuse.Some? ==> ElementPlan(nodes, chain, element).reuse.value in chain
    decreases |chain|
  {
    if chain != [] && chain[0] in nodes && nodes[chain[0]].key != GetOptional(element, "key") {
      ElementPlanReusesChain(nodes, chain[1..], element);
    }
  }

  lemma {:induction false} TextPlanReusesChain(nodes: map<FiberId, Fiber>, chain: seq<FiberId>)
    ensures TextPlan(nodes, chain).reuse.Some? ==> TextPlan(nodes, chain).reuse.value in chain
    decreases |chain|
  {
    if chain != [] && chain[0] in nodes && nodes[chain[0]].tag != HostText {
      TextPlanReusesChain(nodes, chain[1..]);
    }
  }

  /** The record `useFiber(fiber, pendingProps)` returns, after `existing.return = returnFiber`. */
  function UsedFiber(nodes: map<FiberId, Fiber>, fiber: FiberId, pendingProps: Value, returnFiber: FiberId): Fiber
    requires fiber in nodes
  {
    WipRecord(nodes, fiber, pendingProps).(index := 0, sibling := None, ret := Some(returnFiber))
  }

  /** The props of a text fiber, `{ content }`. */
  function TextProps(content: Value): Value {
    Obj(map["content" := content])
  }

  /** `useFiber(fiber, pendingProps)`: the work-in-progress of `fiber` with index 0 and no sibling. */
  method UseFiber(heap: FiberHeap, fiber: FiberId, pendingProps: Value) returns (clone: FiberId)
    requires heap.Valid() && fiber in heap.nodes
    modifies heap
    ensures heap.Valid() && heap.Grows()
    ensures clone in heap.nodes && heap.rank[clone] == heap.rank[fiber]
    ensures old(heap.nodes[fiber]).alternate.Some? ==> clone == old(heap.nodes[fiber]).alternate.value
    ensures old(heap.nodes[fiber]).alternate.None? ==> clone == old(heap.nextId)
    ensures heap.nodes == old(heap.nodes)[fiber := old(heap.nodes[fiber]).(alternate := Some(clone))]
      [clone := WipRecord(old(heap.nodes), fiber, pendingProps).(index := 0, sibling := None)]
  {
    clone := CreateWorkInProgress(heap, fiber, pendingProps);
    assert NodeOk(heap.nodes, heap.rank, heap.maxRank, heap.nextId, heap.roots, clone);
    var w := heap.nodes[clone];
    ghost var n1 := old(heap.nodes)[fiber := old(heap.nodes[fiber]).(alternate := Some(clone))];
    heap.Update(clone, w.(index := 0, sibling := None));
    UpdateTwice(n1, clone, w, w.(index := 0, sibling := None));
  }

  /** `fiber.return = returnFiber`, for a fiber of a higher rank. */
  method SetReturn(heap: FiberHeap, fiber: FiberId, returnFiber: FiberId)
    requires heap.Valid() && fiber in heap.nodes && returnFiber in heap.nodes
    requires heap.rank[returnFiber] < heap.rank[fiber] && heap.nodes[fiber].tag != HostRoot
    modifies heap
    ensures heap.nodes == old(heap.nodes)[fiber := old(heap.nodes[fiber]).(ret := Some(returnFiber))]
    ensures heap.Valid() && heap.SameShape()
  {
    assert NodeOk(heap.nodes, heap.rank, heap.maxRank, heap.nextId, heap.roots, fiber);
    heap.Set(fiber, heap.nodes[fiber].(ret := Some(returnFiber)));
  }

  /** `useFiber(currentFiber, pendingProps)` followed by `existing.return = returnFiber`. */
  method UseFiberUnder(heap: FiberHeap, returnFiber: FiberId, currentFiber: FiberId, pendingProps: Value)
    returns (existing: FiberId)
    requires heap.Valid() && OldChild(heap, returnFiber, Some(currentFiber))
    modifies heap
    ensures heap.Valid() && heap.Grows()
    ensures existing in heap.nodes && heap.rank[existing] == heap.rank[currentFiber]
    ensures old(heap.nodes[currentFiber]).alternate.Some? ==> existing == old(heap.nodes[currentFiber]).alternate.value
    ensures old(heap.nodes[currentFiber]).alternate.None? ==> existing == old(heap.nextId)
    ensures heap.nodes ==
      old(heap.nodes)[currentFiber := old(heap.nodes[currentFiber]).(alternate := Some(existing))]
                     [existing := UsedFiber(old(heap.nodes), currentFiber, pendingProps, returnFiber)]
    ensures existing != returnFiber
  {
    assert NodeOk(heap.nodes, heap.rank, heap.maxRank, heap.nextId, heap.roots, currentFiber);
    assert returnFiber != currentFiber;
    ghost var nodes0 := heap.nodes;
    existing := UseFiber(heap, currentFiber, pendingProps);
    ghost var a := nodes0[currentFiber].(alternate := Some(existing));
    ghost var used := WipRecord(nodes0, currentFiber, pendingProps).(index := 0, sibling := None);
    ghost var n1 := heap.nodes;
    assert n1[existing] == used && existing != returnFiber;
    SetReturn(heap, existing, returnFiber);
    ghost var u := used.(ret := Some(returnFiber));
    assert u == UsedFiber(nodes0, currentFiber, pendingProps, returnFiber);
    UpdateTwice(nodes0[currentFiber := a], existing, used, u);
    ExtendsByUpdate(n1, heap.rank, heap.nextId, heap.roots, existing, used.(ret := Some(returnFiber)));
    ExtendsTrans(nodes0, old(heap.rank), old(heap.nextId), old(heap.roots), n1, heap.rank, heap.nextId, heap.roots,
                 heap.nodes, heap.rank, heap.nextId, heap.roots);
  }

  /**
   * The reuse branch of both loops: `useFiber`, `existing.return =
   * returnFiber`, then the rest of the chain is deleted.
   */
  method ReuseFiber(heap: FiberHeap, track: bool, returnFiber: FiberId, currentFiber: FiberId, pendingProps: Value)
    returns (existing: FiberId)
    requires heap.Valid() && OldChild(heap, returnFiber, Some(currentFiber))
    modifies heap
    ensures heap.Valid() && heap.Grows()
    ensures existing in heap.nodes && heap.rank[existing] == heap.rank[currentFiber]
    ensures old(heap.nodes[currentFiber]).alternate.Some? ==> existing == old(heap.nodes[currentFiber]).alternate.value
    ensures old(heap.nodes[currentFiber]).alternate.None? ==> existing == old(heap.nextId)
    ensures heap.nodes ==
      old(heap.nodes)[currentFiber := old(heap.nodes[currentFiber]).(alternate := Some(existing))]
                     [existing := UsedFiber(old(heap.nodes), currentFiber, pendingProps, returnFiber)]
                     [returnFiber := Deleted(track, old(heap.nodes[returnFiber]), Chain(old(heap.nodes[currentFiber]).sibling))]
  {
    assert NodeOk(heap.nodes, heap.rank, heap.maxRank, heap.nextId, heap.roots, currentFiber);
    existing := UseFiberUnder(heap, returnFiber, currentFiber, pendingProps);
    ghost var mid := heap.nodes;
    assert mid[returnFiber] == old(heap.nodes[returnFiber]);
    assert NodeOk(heap.nodes, heap.rank, heap.maxRank, heap.nextId, heap.roots, currentFiber);
    DeleteRemainingChildren(heap, track, returnFiber, heap.nodes[currentFiber].sibling);
    DeletedKeepsLinks(track, mid[returnFiber], Chain(mid[currentFiber].sibling));
    ExtendsByUpdate(mid, heap.rank, heap.nextId, heap.roots, returnFiber, heap.nodes[returnFiber]);
    ExtendsTrans(old(heap.nodes), old(heap.rank), old(heap.nextId), old(heap.roots), mid, heap.rank, heap.nextId, heap.roots,
                 heap.nodes, heap.rank, heap.nextId, heap.roots);
  }

  /** The record `reconcileSingleElement` creates when no old fiber is reused. */
  function ElementFiber(element: Value, returnFiber: FiberId): Fiber {
    FiberFromElement(element).(ret := Some(returnFiber))
  }

  /** The record `reconcileSingleTextNode` creates when no old fiber is reused. */
  function TextFiber(content: Value, returnFiber: FiberId): Fiber {
    NewFiber(HostText, TextProps(content), Null).(ret := Some(returnFiber))
  }

  /** `createFiberFromElement(element)` followed by `fiber.return = returnFiber`. */
  method NewElementChild(heap: FiberHeap, returnFiber: FiberId, element: Value) returns (fiber: FiberId)
    requires heap.Valid() && returnFiber in heap.nodes
    modifies heap
    ensures heap.Valid() && heap.Grows()
    ensures fiber == old(heap.nextId) && heap.nextId == fiber + 1 && fiber !in old(heap.nodes)
    ensures heap.nodes == old(heap.nodes)[fiber := ElementFiber(element, returnFiber)]
    ensures heap.rank == old(heap.rank)[fiber := old(heap.rank[returnFiber]) + 1]
  {
    fiber := CreateFiberFromElement(heap, element, heap.rank[returnFiber] + 1);
    ghost var mid := heap.nodes;
    SetReturn(heap, fiber, returnFiber);
    ExtendsByUpdate(mid, heap.rank, heap.nextId, heap.roots, fiber, heap.nodes[fiber]);
    ExtendsTrans(old(heap.nodes), old(heap.rank), old(heap.nextId), old(heap.roots),
                 mid, heap.rank, heap.nextId, heap.roots, heap.nodes, heap.rank, heap.nextId, heap.roots);
  }

  /** `new FiberNode(HostText, { content }, null)` followed by `fiber.return = returnFiber`. */
  method NewTextChild(heap: FiberHeap, returnFiber: FiberId, content: Value) returns (fiber: FiberId)
    requires heap.Valid() && returnFiber in heap.nodes
    modifies heap
    ensures heap.Valid() && heap.Grows()
    ensures fiber == old(heap.nextId) && heap.nextId == fiber + 1 && fiber !in old(heap.nodes)
    ensures heap.nodes == old(heap.nodes)[fiber := TextFiber(content, returnFiber)]
    ensures heap.rank == old(heap.rank)[fiber := old(heap.rank[returnFiber]) + 1]
  {
    fiber := heap.Alloc(NewFiber(HostText, TextProps(content), Null), heap.rank[returnFiber] + 1);
    ghost var mid := heap.nodes;
    SetReturn(heap, fiber, returnFiber);
    ExtendsByUpdate(mid, heap.rank, heap.nextId, heap.roots, fiber, heap.nodes[fiber]);
    ExtendsTrans(old(heap.nodes), old(heap.rank), old(heap.nextId), old(heap.roots),
                 mid, heap.rank, heap.nextId, heap.roots, heap.nodes, heap.rank, heap.nextId, heap.roots);
  }

  /** Deleting in two steps is deleting the concatenation. */
  lemma DeletedAppend(track: bool, f: Fiber, a: seq<FiberId>, b: seq<FiberId>)
    ensures Deleted(track, Deleted(track, f, a), b) == Deleted(track, f, a + b)
  {
    if track {
      AddDeletionsAppend(f, a, b);
    }
  }

  /** Deleting keeps the links of the parent's record. */
  lemma {:induction false} DeletedKeepsLinks(track: bool, f: Fiber, children: seq<FiberId>)
    ensures Links(Deleted(track, f, children)) == Links(f)
    decreases |children|
  {
    if track && children != [] {
      DeletedKeepsLinks(track, AddDeletion(f, children[0]), children[1..]);
    }
  }

  /**
   * Frame helper for `ReuseInLoop`: the record `useFiber` builds does not
   * depend on nodes other than the fiber and its alternate.
   */
  lemma UsedFiberFrame(nodes: map<FiberId, Fiber>, k: FiberId, v: Fiber, c: FiberId, pendingProps: Value,
                       returnFiber: FiberId)
    requires c in nodes && k != c
    requires nodes[c].alternate.Some? ==> nodes[c].alternate.value in nodes && nodes[c].alternate.value != k
    ensures UsedFiber(nodes[k := v], c, pendingProps, returnFiber) == UsedFiber(nodes, c, pendingProps, returnFiber)
  {
  }

  /** Frame helper for `ReuseInLoop`: an update of `k` that a later update of `k` overwrites can be dropped. */
  lemma OverwrittenUpdate<V>(m: map<FiberId, V>, k: FiberId, v: V, a: FiberId, va: V, b: FiberId, vb: V, w: V)
    requires k != a && k != b
    ensures m[k := v][a := va][b := vb][k := w] == m[a := va][b := vb][k := w]
  {
  }

  /**
   * The arena `reconcileSingleElement` and `reconcileSingleTextNode` leave
   * under plan `p`: the deletions recorded on `returnFiber`, and either the
   * reused fiber's work-in-progress `fiber`, or the `created` record at `fiber`.
   */
  ghost function ReconciledNodes(nodes0: map<FiberId, Fiber>, track: bool, returnFiber: FiberId, p: Plan,
                                 pendingProps: Value, created: Fiber, fiber: FiberId): map<FiberId, Fiber>
    requires returnFiber in nodes0 && (p.reuse.Some? ==> p.reuse.value in nodes0)
  {
    var r := Deleted(track, nodes0[returnFiber], p.toDelete);
    if p.reuse.Some? then
      var c := p.reuse.value;
      nodes0[c := nodes0[c].(alternate := Some(fiber))][fiber := UsedFiber(nodes0, c, pendingProps, returnFiber)]
            [returnFiber := r]
    else nodes0[returnFiber := r][fiber := created]
  }

  /** What `reconcileSingleElement` and `reconcileSingleTextNode` leave in the arena. */
  ghost predicate Reconciled(nodes0: map<FiberId, Fiber>, nextId0: FiberId, track: bool, returnFiber: FiberId,
                             p: Plan, pendingProps: Value, created: Fiber, fiber: FiberId, nodes: map<FiberId, Fiber>)
    requires returnFiber in nodes0
  {
    (p.reuse.Some? ==>
      var c := p.reuse.value;
      c in nodes0 &&
      (nodes0[c].alternate.Some? ==> fiber == nodes0[c].alternate.value) &&
      (nodes0[c].alternate.None? ==> fiber == nextId0)) &&
    (p.reuse.None? ==> fiber == nextId0) &&
    (p.reuse.Some? ==> p.reuse.value in nodes0) &&
    nodes == ReconciledNodes(nodes0, track, returnFiber, p, pendingProps, created, fiber)
  }

  /** The invariant of both reconcile loops: the chain seen so far was deleted. */
  ghost predicate LoopState(heap: FiberHeap, nodes0: map<FiberId, Fiber>, track: bool, returnFiber: FiberId,
                            currentFiber: Option<FiberId>, cur: Option<FiberId>, deleted: seq<FiberId>)
    requires returnFiber in nodes0
    reads heap
  {
    && heap.nodes == nodes0[returnFiber := Deleted(track, nodes0[returnFiber], deleted)]
    && deleted + Chain(cur) == Chain(currentFiber)
  }

  /** The reuse branch of a reconcile loop, after the fibers in `deleted` were deleted. */
  method ReuseInLoop(heap: FiberHeap, track: bool, returnFiber: FiberId, c: FiberId, pendingProps: Value,
                     ghost nodes0: map<FiberId, Fiber>, ghost deleted: seq<FiberId>, ghost created: Fiber)
    returns (fiber: FiberId)
    requires heap.Valid() && OldChild(heap, returnFiber, Some(c)) && returnFiber in nodes0
    requires heap.nodes == nodes0[returnFiber := Deleted(track, nodes0[returnFiber], deleted)]
    modifies heap
    ensures heap.Valid() && heap.Grows()
    ensures fiber in heap.nodes && heap.rank[fiber] == heap.rank[c]
    ensures Reconciled(nodes0, old(heap.nextId), track, returnFiber, Plan(Some(c), deleted), pendingProps,
                       created, fiber, heap.nodes)
  {
    ghost var mid := heap.nodes;
    assert NodeOk(heap.nodes, heap.rank, heap.maxRank, heap.nextId, heap.roots, c);
    assert mid[c] == nodes0[c];
    ghost var rd := mid[returnFiber];
    fiber := ReuseFiber(heap, track, returnFiber, c, pendingProps);
    assert Chain(mid[c].sibling) == [];
    assert Deleted(track, rd, []) == rd by {
      DeletedAppend(track, nodes0[returnFiber], deleted, []);
      assert deleted + [] == deleted;
    }
    UsedFiberFrame(nodes0, returnFiber, rd, c, pendingProps, returnFiber);
    OverwrittenUpdate(nodes0, returnFiber, rd, c, nodes0[c].(alternate := Some(fiber)),
                      fiber, UsedFiber(nodes0, c, pendingProps, returnFiber), rd);
  }

  /** The deletion branch of both reconcile loops: `deleteChild(returnFiber, c)`, then on to `c.sibling`. */
  method SkipChild(heap: FiberHeap, track: bool, returnFiber: FiberId, currentFiber: Option<FiberId>, c: FiberId,
                   ghost nodes0: map<FiberId, Fiber>, ghost deleted: seq<FiberId>)
    returns (next: Option<FiberId>, ghost deleted': seq<FiberId>)
    requires heap.Valid() && OldChild(heap, returnFiber, Some(c)) && returnFiber in nodes0
    requires LoopState(heap, nodes0, track, returnFiber, currentFiber, Some(c), deleted)
    requires heap.nodes[c] == nodes0[c]
    modifies heap
    ensures heap.Valid() && heap.SameShape() && OldChild(heap, returnFiber, next)
    ensures LoopState(heap, nodes0, track, returnFiber, currentFiber, next, deleted')
    ensures next.Some? ==> heap.nodes[next.value] == nodes0[next.value]
    ensures deleted' == deleted + [c] && Chain(Some(c)) == [c] + Chain(next)
  {
    assert NodeOk(heap.nodes, heap.rank, heap.maxRank, heap.nextId, heap.roots, c);
    DeleteChild(heap, track, returnFiber, c);
    DeletedAppend(track, nodes0[returnFiber], deleted, [c]);
    deleted' := deleted + [c];
    next := heap.nodes[c].sibling;
  }

  /**
   * What the loop of `reconcileSingleElement` leaves behind, from the arena
   * `nodes0` it started on: the fiber reused as `ElementPlan` says with the
   * deleted fibers recorded, or, when the plan reuses none, only the
   * deletions of the plan.
   */
  ghost predicate ElementOutcome(nodes0: map<FiberId, Fiber>, nextId0: FiberId, track: bool, returnFiber: FiberId,
                                 currentFiber: Option<FiberId>, element: Value, reused: Option<FiberId>,
                                 nodes: map<FiberId, Fiber>, rank: map<FiberId, nat>)
    requires returnFiber in nodes0
  {
    var p := ElementPlan(nodes0, Chain(currentFiber), element);
    if reused.Some? then
      && reused.value in nodes && reused.value in rank && returnFiber in rank && rank[reused.value] > rank[returnFiber]
      && Reconciled(nodes0, nextId0, track, returnFiber, p, GetOptional(element, "props"),
                    ElementFiber(element, returnFiber), reused.value, nodes)
    else
      p.reuse.None? && nodes == nodes0[returnFiber := Deleted(track, nodes0[returnFiber], p.toDelete)]
  }

  /**
   * The body of `reconcileSingleElement`'s loop once an old fiber `c` with
   * the element's key is found: it is reused when the types agree, otherwise
   * `ElementMismatch` deletes; the loop ends either way.
   */
  method ElementMatch(heap: FiberHeap, track: bool, returnFiber: FiberId, currentFiber: Option<FiberId>, c: FiberId,
                      element: Value, ghost nodes0: map<FiberId, Fiber>, ghost deleted: seq<FiberId>)
    returns (reused: Option<FiberId>)
    requires heap.Valid() && OldChild(heap, returnFiber, Some(c)) && returnFiber in nodes0
    requires LoopState(heap, nodes0, track, returnFiber, currentFiber, Some(c), deleted)
    requires heap.nodes[c] == nodes0[c] && heap.nodes[c].key == GetOptional(element, "key")
    requires ElementPlan(nodes0, Chain(currentFiber), element) ==
      Prepend(deleted, ElementPlan(nodes0, Chain(Some(c)), element))
    modifies heap
    ensures heap.Valid()
    ensures Extends(nodes0, old(heap.rank), old(heap.nextId), old(heap.roots), heap.nodes, heap.rank, heap.nextId, heap.roots)
    ensures reused.None? ==> heap.SameShape()
    ensures ElementOutcome(nodes0, old(heap.nextId), track, returnFiber, currentFiber, element, reused, heap.nodes, heap.rank)
  {
    if GetOptional(element, "$$typeof") == REACT_ELEMENT_TYPE && heap.nodes[c].elementType == GetOptional(element, "type") {
      assert NodeOk(heap.nodes, heap.rank, heap.maxRank, heap.nextId, heap.roots, c);
      assert Chain(Some(c))[1..] == [];
      assert ElementPlan(nodes0, Chain(currentFiber), element) == Plan(Some(c), deleted + []);
      assert deleted + [] == deleted;
      DeletedKeepsLinks(track, nodes0[returnFiber], deleted);
      ExtendsByUpdate(nodes0, heap.rank, heap.nextId, heap.roots, returnFiber, heap.nodes[returnFiber]);
      ghost var mid := heap.nodes;
      var existing := ReuseInLoop(heap, track, returnFiber, c, GetOptional(element, "props"), nodes0, deleted,
                                  ElementFiber(element, returnFiber));
      ExtendsTrans(nodes0, old(heap.rank), old(heap.nextId), old(heap.roots), mid, old(heap.rank), old(heap.nextId),
                   old(heap.roots), heap.nodes, heap.rank, heap.nextId, heap.roots);
      return Some(existing);
    }
    reused := ElementMismatch(heap, track, returnFiber, currentFiber, c, element, nodes0, deleted);
  }

  /**
   * The old fiber `c` has the element's key but cannot be reused: with an
   * element it and the rest of the chain are deleted; with another value
   * (the case the source warns about) nothing is.
   */
  method ElementMismatch(heap: FiberHeap, track: bool, returnFiber: FiberId, currentFiber: Option<FiberId>, c: FiberId,
                         element: Value, ghost nodes0: map<FiberId, Fiber>, ghost deleted: seq<FiberId>)
    returns (reused: Option<FiberId>)
    requires heap.Valid() && OldChild(heap, returnFiber, Some(c)) && returnFiber in nodes0
    requires LoopState(heap, nodes0, track, returnFiber, currentFiber, Some(c), deleted)
    requires heap.nodes[c] == nodes0[c] && heap.nodes[c].key == GetOptional(element, "key")
    requires !(GetOptional(element, "$$typeof") == REACT_ELEMENT_TYPE && heap.nodes[c].elementType == GetOptional(element, "type"))
    requires ElementPlan(nodes0, Chain(currentFiber), element) ==
      Prepend(deleted, ElementPlan(nodes0, Chain(Some(c)), element))
    modifies heap
    ensures reused == None && heap.Valid() && heap.SameShape()
    ensures Extends(nodes0, old(heap.rank), old(heap.nextId), old(heap.roots), heap.nodes, heap.rank, heap.nextId, heap.roots)
    ensures ElementOutcome(nodes0, old(heap.nextId), track, returnFiber, currentFiber, element, reused, heap.nodes, heap.rank)
  {
    ghost var plan := ElementPlan(nodes0, Chain(currentFiber), element);
    assert NodeOk(heap.nodes, heap.rank, heap.maxRank, heap.nextId, heap.roots, c);
    assert Chain(Some(c))[1..] == [];
    ghost var deleted' := deleted;
    if GetOptional(element, "$$typeof") == REACT_ELEMENT_TYPE {
      DeleteRemainingChildren(heap, track, returnFiber, Some(c));
      DeletedAppend(track, nodes0[returnFiber], deleted, Chain(Some(c)));
      deleted' := deleted + Chain(Some(c));
      assert heap.nodes == nodes0[returnFiber := Deleted(track, nodes0[returnFiber], deleted')];
    } else {
      assert deleted + [] == deleted;
    }
    assert plan == Plan(None, deleted');
    DeletedKeepsLinks(track, nodes0[returnFiber], deleted');
    ExtendsByUpdate(nodes0, heap.rank, heap.nextId, heap.roots, returnFiber, heap.nodes[returnFiber]);
    reused := None;
  }

  /**
   * The loop of `reconcileSingleElement`: walks the old chain, deleting as
   * `ElementPlan` says, and returns the reused fiber when it finds one.
   */
  method ElementLoop(heap: FiberHeap, track: bool, returnFiber: FiberId, currentFiber: Option<FiberId>,
                     element: Value) returns (reused: Option<FiberId>)
    requires heap.Valid() && OldChild(heap, returnFiber, currentFiber)
    modifies heap
    ensures heap.Valid() && heap.Grows()
    ensures reused.None? ==> heap.SameShape()
    ensures ElementOutcome(old(heap.nodes), old(heap.nextId), track, returnFiber, currentFiber, element, reused,
                           heap.nodes, heap.rank)
  {
    ghost var nodes0 := heap.nodes;
    ghost var plan := ElementPlan(nodes0, Chain(currentFiber), element);
    var key := GetOptional(element, "key");
    var cur := currentFiber;
    ghost var deleted: seq<FiberId> := [];
    assert heap.nodes == nodes0[returnFiber := Deleted(track, nodes0[returnFiber], [])];
    while cur.Some?
      invariant heap.Valid() && heap.SameShape() && OldChild(heap, returnFiber, cur)
      invariant LoopState(heap, nodes0, track, returnFiber, currentFiber, cur, deleted)
      invariant cur.Some? ==> heap.nodes[cur.value] == nodes0[cur.value]
      invariant plan == Prepend(deleted, ElementPlan(nodes0, Chain(cur), element))
      decreases |Chain(cur)|
    {
      var c := cur.value;
      if heap.nodes[c].key == key {
        reused := ElementMatch(heap, track, returnFiber, currentFiber, c, element, nodes0, deleted);
        return;
      }
      cur, deleted := SkipChild(heap, track, returnFiber, currentFiber, c, nodes0, deleted);
    }
    assert plan == Plan(None, deleted);
    DeletedKeepsLinks(track, nodes0[returnFiber], deleted);
    ExtendsByUpdate(nodes0, old(heap.rank), old(heap.nextId), old(heap.roots), returnFiber, heap.nodes[returnFiber]);
    reused := None;
  }

  /**
   * `reconcileSingleElement(returnFiber, currentFiber, element)`: the reused
   * or new fiber, whose `return` is `returnFiber`, as `ElementPlan` decides.
   */
  method ReconcileSingleElement(heap: FiberHeap, track: bool, returnFiber: FiberId, currentFiber: Option<FiberId>,
                                element: Value) returns (fiber: FiberId)
    requires heap.Valid() && OldChild(heap, returnFiber, currentFiber)
    modifies heap
    ensures heap.Valid() && heap.Grows()
    ensures fiber in heap.nodes && heap.rank[fiber] > heap.rank[returnFiber]
    ensures Reconciled(old(heap.nodes), old(heap.nextId), track, returnFiber,
                       ElementPlan(old(heap.nodes), Chain(currentFiber), element), GetOptional(element, "props"),
                       ElementFiber(element, returnFiber), fiber, heap.nodes)
  {
    var reused := ElementLoop(heap, track, returnFiber, currentFiber, element);
    if reused.Some? {
      return reused.value;
    }
    ghost var mid := heap.nodes;
    ghost var midRank := heap.rank;
    fiber := NewElementChild(heap, returnFiber, element);
    ExtendsTrans(old(heap.nodes), old(heap.rank), old(heap.nextId), old(heap.roots), mid, midRank, old(heap.nextId),
                 old(heap.roots), heap.nodes, heap.rank, heap.nextId, heap.roots);
  }

  /**
   * What the loop of `reconcileSingleTextNode` leaves behind, from the arena
   * `nodes0` it started on: the fiber reused as `TextPlan` says with the
   * deleted fibers recorded, or, when the plan reuses none, only the
   * deletions of the plan.
   */
  ghost predicate TextOutcome(nodes0: map<FiberId, Fiber>, nextId0: FiberId, track: bool, returnFiber: FiberId,
                              currentFiber: Option<FiberId>, content: Value, reused: Option<FiberId>,
                              nodes: map<FiberId, Fiber>, rank: map<FiberId, nat>)
    requires returnFiber in nodes0
  {
    var p := TextPlan(nodes0, Chain(currentFiber));
    if reused.Some? then
      && reused.value in nodes && reused.value in rank && returnFiber in rank && rank[reused.value] > rank[returnFiber]
      && Reconciled(nodes0, nextId0, track, returnFiber, p, TextProps(content), TextFiber(content, returnFiber),
                    reused.value, nodes)
    else
      p.reuse.None? && nodes == nodes0[returnFiber := Deleted(track, nodes0[returnFiber], p.toDelete)]
  }

  /** The reuse branch of `reconcileSingleTextNode`'s loop: the old fiber `c` is a HostText fiber. */
  method TextMatch(heap: FiberHeap, track: bool, returnFiber: FiberId, currentFiber: Option<FiberId>, c: FiberId,
                   content: Value, ghost nodes0: map<FiberId, Fiber>, ghost deleted: seq<FiberId>)
    returns (reused: Option<FiberId>)
    requires heap.Valid() && OldChild(heap, returnFiber, Some(c)) && returnFiber in nodes0
    requires LoopState(heap, nodes0, track, returnFiber, currentFiber, Some(c), deleted)
    requires heap.nodes[c] == nodes0[c] && heap.nodes[c].tag == HostText
    requires TextPlan(nodes0, Chain(currentFiber)) == Prepend(deleted, TextPlan(nodes0, Chain(Some(c))))
    modifies heap
    ensures reused.Some? && heap.Valid()
    ensures Extends(nodes0, old(heap.rank), old(heap.nextId), old(heap.roots), heap.nodes, heap.rank, heap.nextId, heap.roots)
    ensures TextOutcome(nodes0, old(heap.nextId), track, returnFiber, currentFiber, content, reused, heap.nodes, heap.rank)
  {
    assert NodeOk(heap.nodes, heap.rank, heap.maxRank, heap.nextId, heap.roots, c);
    assert Chain(Some(c))[1..] == [];
    assert TextPlan(nodes0, Chain(currentFiber)) == Plan(Some(c), deleted + []);
    assert deleted + [] == deleted;
    DeletedKeepsLinks(track, nodes0[returnFiber], deleted);
    ExtendsByUpdate(nodes0, heap.rank, heap.nextId, heap.roots, returnFiber, heap.nodes[returnFiber]);
    ghost var mid := heap.nodes;
    var existing := ReuseInLoop(heap, track, returnFiber, c, TextProps(content), nodes0, deleted,
                                TextFiber(content, returnFiber));
    ExtendsTrans(nodes0, old(heap.rank), old(heap.nextId), old(heap.roots), mid, old(heap.rank), old(heap.nextId),
                 old(heap.roots), heap.nodes, heap.rank, heap.nextId, heap.roots);
    reused := Some(existing);
  }

  /**
   * The loop of `reconcileSingleTextNode`: walks the old chain, deleting as
   * `TextPlan` says, and returns the reused fiber when it finds one.
   */
  method TextLoop(heap: FiberHeap, track: bool, returnFiber: FiberId, currentFiber: Option<FiberId>, content: Value)
    returns (reused: Option<FiberId>)
    requires heap.Valid() && OldChild(heap, returnFiber, currentFiber)
    modifies heap
    ensures heap.Valid() && heap.Grows()
    ensures reused.None? ==> heap.SameShape()
    ensures TextOutcome(old(heap.nodes), old(heap.nextId), track, returnFiber, currentFiber, content, reused,
                        heap.nodes, heap.rank)
  {
    ghost var nodes0 := heap.nodes;
    ghost var plan := TextPlan(nodes0, Chain(currentFiber));
    var cur := currentFiber;
    ghost var deleted: seq<FiberId> := [];
    assert heap.nodes == nodes0[returnFiber := Deleted(track, nodes0[returnFiber], [])];
    while cur.Some?
      invariant heap.Valid() && heap.SameShape() && OldChild(heap, returnFiber, cur)
      invariant LoopState(heap, nodes0, track, returnFiber, currentFiber, cur, deleted)
      invariant cur.Some? ==> heap.nodes[cur.value] == nodes0[cur.value]
      invariant plan == Prepend(deleted, TextPlan(nodes0, Chain(cur)))
      decreases |Chain(cur)|
    {
      var c := cur.value;
      if heap.nodes[c].tag == HostText {
        reused := TextMatch(heap, track, returnFiber, currentFiber, c, content, nodes0, deleted);
        return;
      }
      cur, deleted := SkipChild(heap, track, returnFiber, currentFiber, c, nodes0, deleted);
    }
    assert plan == Plan(None, deleted);
    DeletedKeepsLinks(track, nodes0[returnFiber], deleted);
    ExtendsByUpdate(nodes0, old(heap.rank), old(heap.nextId), old(heap.roots), returnFiber, heap.nodes[returnFiber]);
    reused := None;
  }

  /**
   * `reconcileSingleTextNode(returnFiber, currentFiber, content)`: the reused
   * HostText fiber or a new one with props `{ content }` and a null key, as
   * `TextPlan` decides.
   */
  method ReconcileSingleTextNode(heap: FiberHeap, track: bool, returnFiber: FiberId, currentFiber: Option<FiberId>,
                                 content: Value) returns (fiber: FiberId)
    requires heap.Valid() && OldChild(heap, returnFiber, currentFiber)
    modifies heap
    ensures heap.Valid() && heap.Grows()
    ensures fiber in heap.nodes && heap.rank[fiber] > heap.rank[returnFiber]
    ensures Reconciled(old(heap.nodes), old(heap.nextId), track, returnFiber,
                       TextPlan(old(heap.nodes), Chain(currentFiber)), TextProps(content),
                       TextFiber(content, returnFiber), fiber, heap.nodes)
  {
    var reused := TextLoop(heap, track, returnFiber, currentFiber, content);
    if reused.Some? {
      return reused.value;
    }
    ghost var mid := heap.nodes;
    ghost var midRank := heap.rank;
    fiber := NewTextChild(heap, returnFiber, content);
    ExtendsTrans(old(heap.nodes), old(heap.rank), old(heap.nextId), old(heap.roots), mid, midRank, old(heap.nextId),
                 old(heap.roots), heap.nodes, heap.rank, heap.nextId, heap.roots);
  }

  /** The record `placeSingleChild` leaves: a fiber without alternate is marked Placement when tracking. */
  function Placed(track: bool, f: Fiber): Fiber {
    if track && f.alternate.None? then f.(flags := Placement) else f
  }

  /** `placeSingleChild(fiber)`. */
  method PlaceSingleChild(heap: FiberHeap, track: bool, fiber: FiberId)
    requires heap.Valid() && fiber in heap.nodes
    modifies heap
    ensures heap.nodes == old(heap.nodes)[fiber := Placed(track, old(heap.nodes[fiber]))]
    ensures heap.Valid() && heap.SameShape()
  {
    var f := heap.nodes[fiber];
    if track && f.alternate == None {
      heap.Update(fiber, f.(flags := Placement));
    } else {
      UpdateSame(heap.nodes, fiber);
    }
  }

  /**
   * The fiber that a single-child reconciliation returns has `returnFiber`
   * as its `return` and no flags; it has an alternate exactly when an old
   * fiber was reused. So `placeSingleChild` marks it Placement exactly when
   * tracking and nothing was reused.
   */
  lemma ReconciledFiber(nodes0: map<FiberId, Fiber>, track: bool, returnFiber: FiberId, p: Plan,
                        pendingProps: Value, created: Fiber, fiber: FiberId)
    requires returnFiber in nodes0 && (p.reuse.Some? ==> p.reuse.value in nodes0) && fiber != returnFiber
    requires p.reuse.Some? ==> nodes0[p.reuse.value].alternate.Some? ==> nodes0[p.reuse.value].alternate.value in nodes0
    requires created.ret == Some(returnFiber) && created.flags == NoFlags && created.alternate.None?
    ensures var f := ReconciledNodes(nodes0, track, returnFiber, p, pendingProps, created, fiber)[fiber];
      f.ret == Some(returnFiber) && f.flags == NoFlags
    ensures p.reuse.None? ==>
      var f := ReconciledNodes(nodes0, track, returnFiber, p, pendingProps, created, fiber)[fiber];
      f.alternate.None? && Placed(track, f).flags == (if track then Placement else NoFlags)
    ensures p.reuse.Some? && nodes0[p.reuse.value].alternate.None? ==>
      var f := ReconciledNodes(nodes0, track, returnFiber, p, pendingProps, created, fiber)[fiber];
      f.alternate == p.reuse && Placed(track, f).flags == NoFlags
  {
  }

  /**
   * The fields `reconcileSingleElement` and `reconcileSingleTextNode` give a
   * fiber they create: the element's tag, key, type and props, or HostText
   * with `{ content }` and a null key, with `returnFiber` as `return`.
   */
  lemma CreatedFibers(element: Value, content: Value, returnFiber: FiberId)
    ensures var f := ElementFiber(element, returnFiber);
      f.tag == ElementTag(GetOptional(element, "type")) && f.key == NormalizeKey(GetOptional(element, "key")) &&
      f.elementType == GetOptional(element, "type") && f.pendingProps == GetOptional(element, "props") &&
      f.ret == Some(returnFiber) && f.flags == NoFlags && f.alternate.None?
    ensures var t := TextFiber(content, returnFiber);
      t.tag == HostText && t.key == Null && t.pendingProps == Obj(map["content" := content]) &&
      t.ret == Some(returnFiber) && t.flags == NoFlags && t.alternate.None?
  {
  }

  /** What `placeSingleChild(reconcileSingle…(…))` leaves: the reconciled arena with `fiber` placed. */
  ghost predicate PlacedChild(nodes0: map<FiberId, Fiber>, nextId0: FiberId, track: bool, returnFiber: FiberId,
                              p: Plan, pendingProps: Value, created: Fiber, fiber: FiberId, nodes: map<FiberId, Fiber>)
    requires returnFiber in nodes0 && (p.reuse.Some? ==> p.reuse.value in nodes0)
  {
    var n := ReconciledNodes(nodes0, track, returnFiber, p, pendingProps, created, fiber);
    Reconciled(nodes0, nextId0, track, returnFiber, p, pendingProps, created, fiber, n) &&
    nodes == n[fiber := Placed(track, n[fiber])]
  }

  /** `placeSingleChild(reconcileSingleElement(returnFiber, currentFiber, element))`. */
  method PlaceElement(heap: FiberHeap, track: bool, returnFiber: FiberId, currentFiber: Option<FiberId>,
                      element: Value) returns (fiber: FiberId)
    requires heap.Valid() && OldChild(heap, returnFiber, currentFiber)
    modifies heap
    ensures heap.Valid() && heap.Grows()
    ensures fiber in heap.nodes && heap.rank[fiber] > heap.rank[returnFiber]
    ensures PlacedChild(old(heap.nodes), old(heap.nextId), track, returnFiber,
                        ElementPlan(old(heap.nodes), Chain(currentFiber), element), GetOptional(element, "props"),
                        ElementFiber(element, returnFiber), fiber, heap.nodes)
  {
    fiber := ReconcileSingleElement(heap, track, returnFiber, currentFiber, element);
    PlaceSingleChild(heap, track, fiber);
  }

  /** `placeSingleChild(reconcileSingleTextNode(returnFiber, currentFiber, content))`. */
  method PlaceText(heap: FiberHeap, track: bool, returnFiber: FiberId, currentFiber: Option<FiberId>,
                   content: Value) returns (fiber: FiberId)
    requires heap.Valid() && OldChild(heap, returnFiber, currentFiber)
    modifies heap
    ensures heap.Valid() && heap.Grows()
    ensures fiber in heap.nodes && heap.rank[fiber] > heap.rank[returnFiber]
    ensures PlacedChild(old(heap.nodes), old(heap.nextId), track, returnFiber,
                        TextPlan(old(heap.nodes), Chain(currentFiber)), TextProps(content),
                        TextFiber(content, returnFiber), fiber, heap.nodes)
  {
    fiber := ReconcileSingleTextNode(heap, track, returnFiber, currentFiber, content);
    PlaceSingleChild(heap, track, fiber);
  }

  /** `typeof newChild === 'object' && newChild !== null && newChild.$$typeof === REACT_ELEMENT_TYPE`. */
  predicate IsElementChild(newChild: Value) {
    IsObject(newChild) && GetOptional(newChild, "$$typeof") == REACT_ELEMENT_TYPE
  }

  /**
   * What `reconcileChildFibers` leaves: a React element is reconciled by
   * `ElementPlan`, a string or number by `TextPlan`, and both are placed;
   * anything else deletes the old first child only and gives null.
   */
  ghost predicate ReconciledChildren(nodes0: map<FiberId, Fiber>, nextId0: FiberId, track: bool, returnFiber: FiberId,
                                     currentFiber: Option<FiberId>, newChild: Value, child: Option<FiberId>,
                                     nodes: map<FiberId, Fiber>)
    requires returnFiber in nodes0
  {
    if IsElementChild(newChild) then
      child.Some? &&
      PlacedChild(nodes0, nextId0, track, returnFiber, ElementPlan(nodes0, Chain(currentFiber), newChild),
                  GetOptional(newChild, "props"), ElementFiber(newChild, returnFiber), child.value, nodes)
    else if IsText(newChild) then
      child.Some? &&
      PlacedChild(nodes0, nextId0, track, returnFiber, TextPlan(nodes0, Chain(currentFiber)), TextProps(newChild),
                  TextFiber(newChild, returnFiber), child.value, nodes)
    else
      child.None? && nodes == nodes0[returnFiber := Deleted(track, nodes0[returnFiber], Chain(currentFiber))]
  }

  /**
   * The child `reconcileChildFibers` returns: its `return` is `returnFiber`,
   * its pending props are the element's props or `{ content }`, it is no
   * host root, and it is marked Placement exactly when tracking and it has
   * no alternate; otherwise it has no flags.
   */
  lemma ReconciledChildRecord(nodes0: map<FiberId, Fiber>, nextId0: FiberId, track: bool, returnFiber: FiberId,
                              currentFiber: Option<FiberId>, newChild: Value, child: Option<FiberId>,
                              nodes: map<FiberId, Fiber>)
    requires returnFiber in nodes0
    requires ReconciledChildren(nodes0, nextId0, track, returnFiber, currentFiber, newChild, child, nodes)
    requires child.Some? && child.value != returnFiber
    requires currentFiber.Some? ==>
      var c := currentFiber.value;
      c in nodes0 && nodes0[c].tag != HostRoot &&
      (nodes0[c].alternate.Some? ==> nodes0[c].alternate.value in nodes0 &&
                                     nodes0[nodes0[c].alternate.value].tag == nodes0[c].tag)
    ensures child.value in nodes
    ensures var f := nodes[child.value];
      && f.ret == Some(returnFiber) && f.tag != HostRoot
      && f.pendingProps == (if IsElementChild(newChild) then GetOptional(newChild, "props") else TextProps(newChild))
      && f.flags == (if track && f.alternate.None? then Placement else NoFlags)
  {
    var p := if IsElementChild(newChild) then ElementPlan(nodes0, Chain(currentFiber), newChild)
             else TextPlan(nodes0, Chain(currentFiber));
    var pp := if IsElementChild(newChild) then GetOptional(newChild, "props") else TextProps(newChild);
    var created := if IsElementChild(newChild) then ElementFiber(newChild, returnFiber)
                   else TextFiber(newChild, returnFiber);
    if IsElementChild(newChild) {
      ElementPlanReusesChain(nodes0, Chain(currentFiber), newChild);
    } else {
      TextPlanReusesChain(nodes0, Chain(currentFiber));
    }
    var n := ReconciledNodes(nodes0, track, returnFiber, p, pp, created, child.value);
    assert nodes == n[child.value := Placed(track, n[child.value])];
  }

  /**
   * `reconcileChildFibers(returnFiber, currentFiber, newChild)`: a React
   * element and a string or number are reconciled as a single child and
   * placed; for anything else the old child is deleted and the result is
   * null.
   */
  method ReconcileChildFibers(heap: FiberHeap, track: bool, returnFiber: FiberId, currentFiber: Option<FiberId>,
                              newChild: Value) returns (child: Option<FiberId>)
    requires heap.Valid() && OldChild(heap, returnFiber, currentFiber)
    modifies heap
    ensures heap.Valid() && heap.Grows()
    ensures child.Some? ==> child.value in heap.nodes && heap.rank[child.value] > heap.rank[returnFiber]
    ensures ReconciledChildren(old(heap.nodes), old(heap.nextId), track, returnFiber, currentFiber, newChild, child,
                               heap.nodes)
  {
    if IsObject(newChild) && GetOptional(newChild, "$$typeof") == REACT_ELEMENT_TYPE {
      var fiber := PlaceElement(heap, track, returnFiber, currentFiber, newChild);
      return Some(fiber);
    }
    if IsText(newChild) {
      var fiber := PlaceText(heap, track, returnFiber, currentFiber, newChild);
      return Some(fiber);
    }
    DeleteCurrent(heap, track, returnFiber, currentFiber);
    child := None;
  }

  /** The last branch of `reconcileChildFibers`: the old child, if any, is deleted. */
  method DeleteCurrent(heap: FiberHeap, track: bool, returnFiber: FiberId, currentFiber: Option<FiberId>)
    requires heap.Valid() && OldChild(heap, returnFiber, currentFiber)
    modifies heap
    ensures heap.Valid() && heap.Grows()
    ensures heap.nodes == old(heap.nodes)[returnFiber := Deleted(track, old(heap.nodes[returnFiber]), Chain(currentFiber))]
  {
    if currentFiber.Some? {
      DeleteChild(heap, track, returnFiber, currentFiber.value);
      DeletedKeepsLinks(track, old(heap.nodes[returnFiber]), Chain(currentFiber));
      ExtendsByUpdate(old(heap.nodes), heap.rank, heap.nextId, heap.roots, returnFiber, heap.nodes[returnFiber]);
    } else {
      assert old(heap.nodes)[returnFiber := Deleted(track, old(heap.nodes[returnFiber]), [])] == old(heap.nodes);
    }
  }
}
