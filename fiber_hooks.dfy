/**
 * Hooks at mount time (packages/react-reconciler/src/fiberHooks.ts) and the
 * dispatcher slot they go through (packages/react/src/currentDispatch.ts,
 * packages/react/index.ts). The hooks a component mounts form a list linked
 * through `next`; the ghost sequence `chain` lists the hooks appended since
 * `workInProgressHook` was last null, oldest first.
 */
module FiberHooks {
  import opened Wrappers
  import opened ReactTypes
  import opened Lanes
  import opened WorkTags
  import opened UpdateQueues
  import opened HostConfig
  import opened Fibers
  import opened BeginWorks
  import opened WorkLoops

  const HookOutsideComponent := "hook必须在函数组件中调用"
  const DispatcherMissing := "hooks 只能在函数式组件中执行"
  const ReturnOfNull := "TypeError: Cannot read properties of null (reading 'return')"

  /** The dispatchers of this snapshot: only the mount dispatcher, whose `useState` is `mountState`. */
  datatype Dispatcher = HooksDispatcherOnMount

  /** `currentDispatcher`, the shared `{ current }` slot. */
  class CurrentDispatcher {
    var current: Option<Dispatcher>

    constructor ()
      ensures current == None
    {
      current := None;
    }
  }

  /** A hook record. */
  class Hook {
    var memoizedState: Value
    var updateQueue: UpdateQueue?<Value>
    var next: Hook?

    constructor ()
      ensures memoizedState == Null && updateQueue == null && next == null
    {
      memoizedState := Null;
      updateQueue := null;
      next := null;
    }
  }

  /**
   * What the component `wip.type` does when called with `wip.pendingProps`:
   * the initial states of its `useState` calls in call order, what calling
   * a function value `Fn(id)` with no argument returns, and the children it
   * returns.
   */
  datatype ComponentBody = ComponentBody(calls: seq<Value>, invoke: nat -> Value, children: Value)

  /** The state `mountState(initialState)` stores: a function initial state is called and its result kept. */
  function InitialState(initialState: Value, invoke: nat -> Value): (s: Value)
    ensures !initialState.Fn? ==> s == initialState
  {
    if initialState.Fn? then invoke(initialState.id) else initialState
  }

  /** `hook` as `mountState` leaves it: its state, and a fresh queue holding the dispatch bound to `fiber` and that queue. */
  ghost predicate Mounted(hook: Hook, state: Value, fiber: Option<FiberId>)
    reads hook`memoizedState, hook`updateQueue, hook.updateQueue
  {
    && hook.memoizedState == state
    && hook.updateQueue != null
    && hook.updateQueue.pending == null && hook.updateQueue.ring == []
    && hook.updateQueue.dispatch == Some(BoundDispatch(fiber, hook.updateQueue))
  }

  /** `chain` is linked through `next` and ends at `last`, whose `next` is null. */
  ghost predicate IsChain(last: Hook?, chain: seq<Hook>)
    reads Elements(chain)`next
  {
    && (last == null <==> chain == [])
    && (last != null ==> last == chain[|chain| - 1] && last.next == null)
    && (forall i, j :: 0 <= i < |chain| - 1 && j == i + 1 ==> chain[i].next == chain[j])
  }

  /** The module state of packages/react-reconciler/src/fiberHooks.ts. */
  class HooksState {
    var currentlyRenderingFiber: Option<FiberId>
    var workInProgressHook: Hook?
    const currentDispatcher: CurrentDispatcher
    ghost var chain: seq<Hook>

    ghost predicate Valid()
      reads this`workInProgressHook, this`chain, Elements(chain)`next
    {
      IsChain(workInProgressHook, chain)
    }

    constructor (currentDispatcher: CurrentDispatcher)
      ensures this.currentDispatcher == currentDispatcher
      ensures currentlyRenderingFiber == None && workInProgressHook == null && chain == []
      ensures Valid()
    {
      this.currentDispatcher := currentDispatcher;
      currentlyRenderingFiber := None;
      workInProgressHook := null;
      chain := [];
    }

    /**
     * `mountWorkInProgressHook()`: a new empty hook. The first one needs a
     * rendering fiber and becomes its `memoizedState`; later ones are
     * linked from the previous hook's `next`.
     */
    method MountWorkInProgressHook(heap: FiberHeap) returns (r: Result<Hook>)
      requires Valid() && heap.Valid()
      requires currentlyRenderingFiber.Some? ==> currentlyRenderingFiber.value in heap.nodes
      modifies this`workInProgressHook, this`chain, heap, (if workInProgressHook != null then {workInProgressHook} else {})`next
      ensures Valid() && heap.Valid() && heap.SameShape()
      ensures old(workInProgressHook) == null && currentlyRenderingFiber.None? ==>
        r == Throw(HookOutsideComponent) && workInProgressHook == null && chain == old(chain) &&
        heap.nodes == old(heap.nodes)
      ensures old(workInProgressHook) != null || currentlyRenderingFiber.Some? ==>
        && r.Ok? && fresh(r.value) && chain == old(chain) + [r.value] && workInProgressHook == r.value
        && r.value.memoizedState == Null && r.value.updateQueue == null && r.value.next == null
      ensures old(workInProgressHook) == null && currentlyRenderingFiber.Some? ==>
        var f := currentlyRenderingFiber.value;
        heap.nodes == old(heap.nodes)[f := old(heap.nodes[f]).(memoizedState := Ref(r.value))]
      ensures old(workInProgressHook) != null ==> heap.nodes == old(heap.nodes)
    {
      var hook := new Hook();
      if workInProgressHook == null {
        if currentlyRenderingFiber.None? {
          return Throw(HookOutsideComponent);
        }
        workInProgressHook := hook;
        chain := [hook];
        var f := currentlyRenderingFiber.value;
        heap.Update(f, heap.nodes[f].(memoizedState := Ref(hook)));
      } else {
        workInProgressHook.next := hook;
        workInProgressHook := hook;
        chain := chain + [hook];
        assert chain[|chain| - 2].next == hook;
      }
      r := Ok(hook);
    }

    /**
     * `mountState(initialState)`: mounts a hook holding the initial state
     * (a function is called for it) and a fresh queue whose `dispatch` is
     * `dispatchSetState` bound to the rendering fiber and that queue; both
     * are returned.
     */
    method MountState(heap: FiberHeap, initialState: Value, invoke: nat -> Value) returns (r: Result<(Value, Dispatch)>)
      requires Valid() && heap.Valid()
      requires currentlyRenderingFiber.Some? ==> currentlyRenderingFiber.value in heap.nodes
      modifies this`workInProgressHook, this`chain, heap, (if workInProgressHook != null then {workInProgressHook} else {})`next
      ensures Valid() && heap.Valid() && heap.SameShape()
      ensures old(workInProgressHook) == null && currentlyRenderingFiber.None? ==>
        r == Throw(HookOutsideComponent) && workInProgressHook == null && chain == old(chain) &&
        heap.nodes == old(heap.nodes)
      ensures old(workInProgressHook) != null || currentlyRenderingFiber.Some? ==>
        var hook := workInProgressHook;
        && hook != null && fresh(hook) && chain == old(chain) + [hook] && hook.next == null
        && fresh(hook.updateQueue) && Mounted(hook, InitialState(initialState, invoke), currentlyRenderingFiber)
        && r == Ok((InitialState(initialState, invoke), BoundDispatch(currentlyRenderingFiber, hook.updateQueue)))
      ensures old(workInProgressHook) == null && currentlyRenderingFiber.Some? ==>
        var f := currentlyRenderingFiber.value;
        heap.nodes == old(heap.nodes)[f := old(heap.nodes[f]).(memoizedState := Ref(workInProgressHook))]
      ensures old(workInProgressHook) != null ==> heap.nodes == old(heap.nodes)
    {
      var h := MountWorkInProgressHook(heap);
      if h.Throw? {
        return Throw(h.message);
      }
      var hook := h.value;
      var memoizedState;
      if initialState.Fn? {
        memoizedState := invoke(initialState.id);
      } else {
        memoizedState := initialState;
      }
      var queue := new UpdateQueue<Value>();
      hook.updateQueue := queue;
      hook.memoizedState := memoizedState;
      var dispatch := BoundDispatch(currentlyRenderingFiber, queue);
      queue.dispatch := Some(dispatch);
      r := Ok((memoizedState, dispatch));
    }

    /**
     * `useState(initialState)` of packages/react/index.ts:
     * `resolveDispatcher()` throws when no dispatcher is installed;
     * otherwise the call goes to the dispatcher's `useState`, `mountState`.
     */
    method UseState(heap: FiberHeap, initialState: Value, invoke: nat -> Value) returns (r: Result<(Value, Dispatch)>)
      requires Valid() && heap.Valid()
      requires currentlyRenderingFiber.Some? ==> currentlyRenderingFiber.value in heap.nodes
      modifies this`workInProgressHook, this`chain, heap, (if workInProgressHook != null then {workInProgressHook} else {})`next
      ensures Valid() && heap.Valid() && heap.SameShape()
      ensures currentDispatcher.current.None? ==>
        r == Throw(DispatcherMissing) && workInProgressHook == old(workInProgressHook) && chain == old(chain) &&
        heap.nodes == old(heap.nodes)
      ensures currentDispatcher.current.Some? && old(workInProgressHook) == null && currentlyRenderingFiber.None? ==>
        r == Throw(HookOutsideComponent) && workInProgressHook == null && chain == old(chain) &&
        heap.nodes == old(heap.nodes)
      ensures currentDispatcher.current.Some? && (old(workInProgressHook) != null || currentlyRenderingFiber.Some?) ==>
        var hook := workInProgressHook;
        && hook != null && fresh(hook) && chain == old(chain) + [hook] && hook.next == null
        && fresh(hook.updateQueue) && Mounted(hook, InitialState(initialState, invoke), currentlyRenderingFiber)
        && r == Ok((InitialState(initialState, invoke), BoundDispatch(currentlyRenderingFiber, hook.updateQueue)))
      ensures currentDispatcher.current.Some? && old(workInProgressHook) == null && currentlyRenderingFiber.Some? ==>
        var f := currentlyRenderingFiber.value;
        heap.nodes == old(heap.nodes)[f := old(heap.nodes[f]).(memoizedState := Ref(workInProgressHook))]
      ensures currentDispatcher.current.None? || old(workInProgressHook) != null ==> heap.nodes == old(heap.nodes)
    {
      var dispatcher := currentDispatcher.current;
      if dispatcher.None? {
        return Throw(DispatcherMissing);
      }
      match dispatcher.value
      case HooksDispatcherOnMount =>
        r := MountState(heap, initialState, invoke);
    }
  
    /**
     * `renderWithHooks(wip)`: with `wip` as the rendering fiber and its
     * `memoizedState` cleared, the mount dispatcher is installed when
     * `wip` has no alternate, and the component runs; its `useState`
     * calls mount hooks in call order. The rendering fiber is reset to
     * null when it returns, but not when a hook throws. Since
     * `workInProgressHook` is never reset, only a render that starts with
     * it null links its first hook from `wip.memoizedState`; later
     * renders chain their hooks onto the previous render's last one.
     */
    method RenderWithHooks(heap: FiberHeap, wip: FiberId, component: ComponentBody) returns (r: Result<Value>)
      requires Valid() && heap.Valid() && wip in heap.nodes
      modifies this`currentlyRenderingFiber, this`workInProgressHook, this`chain, currentDispatcher`current, heap
      modifies (if workInProgressHook != null then {workInProgressHook} else {})`next
      ensures Valid() && heap.Valid() && heap.SameShape()
      ensures currentDispatcher.current ==
        if old(heap.nodes[wip]).alternate.None? then Some(HooksDispatcherOnMount) else old(currentDispatcher.current)
      ensures |component.calls| > 0 && currentDispatcher.current.None? ==>
        r == Throw(DispatcherMissing) && currentlyRenderingFiber == Some(wip) && chain == old(chain) &&
        workInProgressHook == old(workInProgressHook)
      ensures |component.calls| == 0 || currentDispatcher.current.Some? ==>
        && r == Ok(component.children) && currentlyRenderingFiber == None
        && MountedRun(old(chain), chain, component, wip)
        && (forall k :: |old(chain)| <= k < |chain| ==> fresh(chain[k]) && fresh(chain[k].updateQueue))
      ensures heap.nodes == old(heap.nodes)[wip := old(heap.nodes[wip]).(memoizedState :=
        if old(workInProgressHook) == null && |component.calls| > 0 && currentDispatcher.current.Some?
        then Ref(chain[0]) else Null)]
    {
      currentlyRenderingFiber := Some(wip);
      heap.Update(wip, heap.nodes[wip].(memoizedState := Null));
      var current := heap.nodes[wip].alternate;
      if current.None? {
        currentDispatcher.current := Some(HooksDispatcherOnMount);
      }
      r := CallComponent(heap, wip, component, old(heap.nodes));
      if r.Ok? {
        ClearRenderingFiber();
      }
    }

    /**
     * `renderWithHooks(wip)` as React evidently intends it, with
     * `workInProgressHook` reset to null before the component runs: every
     * render that mounts hooks links its first hook from
     * `wip.memoizedState`, and the hook list holds this render's hooks only.
     */
    method RenderWithHooksFromStart(heap: FiberHeap, wip: FiberId, component: ComponentBody) returns (r: Result<Value>)
      requires Valid() && heap.Valid() && wip in heap.nodes
      modifies this`currentlyRenderingFiber, this`workInProgressHook, this`chain, currentDispatcher`current, heap
      ensures Valid() && heap.Valid() && heap.SameShape()
      ensures |component.calls| > 0 && currentDispatcher.current.None? ==>
        r == Throw(DispatcherMissing) && chain == [] && workInProgressHook == null
      ensures |component.calls| == 0 || currentDispatcher.current.Some? ==>
        && r == Ok(component.children) && currentlyRenderingFiber == None
        && MountedRun([], chain, component, wip)
        && heap.nodes == old(heap.nodes)[wip := old(heap.nodes[wip]).(memoizedState :=
             if |component.calls| > 0 then Ref(chain[0]) else Null)]
    {
      workInProgressHook := null;
      chain := [];
      r := RenderWithHooks(heap, wip, component);
    }

    /** `currentlyRenderingFiber = null`, which keeps the hook list. */
    method ClearRenderingFiber()
      requires Valid()
      modifies this`currentlyRenderingFiber
      ensures Valid() && currentlyRenderingFiber == None
    {
      currentlyRenderingFiber := None;
    }

    /**
     * `Component(props)` inside `renderWithHooks`: the component's
     * `useState` calls in order while `wip` is the rendering fiber.
     */
    method CallComponent(heap: FiberHeap, wip: FiberId, component: ComponentBody, ghost n0: map<FiberId, Fiber>)
      returns (r: Result<Value>)
      requires Valid() && heap.Valid() && wip in heap.nodes && currentlyRenderingFiber == Some(wip)
      requires wip in n0 && heap.nodes == n0[wip := n0[wip].(memoizedState := Null)]
      modifies this`workInProgressHook, this`chain, heap, (if workInProgressHook != null then {workInProgressHook} else {})`next
      ensures Valid() && heap.Valid() && heap.SameShape()
      ensures |component.calls| > 0 && currentDispatcher.current.None? ==>
        r == Throw(DispatcherMissing) && chain == old(chain) && workInProgressHook == old(workInProgressHook)
      ensures |component.calls| == 0 || currentDispatcher.current.Some? ==>
        && r == Ok(component.children) && MountedRun(old(chain), chain, component, wip)
        && (forall k :: |old(chain)| <= k < |chain| ==> fresh(chain[k]) && fresh(chain[k].updateQueue))
      ensures heap.nodes == n0[wip := n0[wip].(memoizedState :=
        if old(workInProgressHook) == null && |component.calls| > 0 && currentDispatcher.current.Some?
        then Ref(chain[0]) else Null)]
    {
      ghost var c0 := chain;
      ghost var f0 := n0[wip];
      var i := 0;
      while i < |component.calls|
        invariant 0 <= i <= |component.calls| && Valid() && heap.Valid() && heap.SameShape()
        invariant i > 0 ==> currentDispatcher.current.Some?
        invariant i == 0 ==> workInProgressHook == old(workInProgressHook)
        invariant MountedRun(c0, chain, component.(calls := component.calls[..i]), wip)
        invariant forall k :: |c0| <= k < |chain| ==> fresh(chain[k]) && fresh(chain[k].updateQueue)
        invariant i > 0 ==> fresh(workInProgressHook)
        invariant heap.nodes == n0[wip := f0.(memoizedState :=
          if old(workInProgressHook) == null && i > 0 then Ref(chain[0]) else Null)]
      {
        var res := CallUseState(heap, wip, component, i, c0);
        if res.Throw? {
          return Throw(res.message);
        }
        i := i + 1;
      }
      assert component.calls[..i] == component.calls;
      return Ok(component.children);
    }

    /** The `i`-th `useState` call of the component while `wip` renders, after `i` calls have mounted hooks. */
    method CallUseState(heap: FiberHeap, wip: FiberId, component: ComponentBody, i: nat, ghost c0: seq<Hook>)
      returns (r: Result<(Value, Dispatch)>)
      requires Valid() && heap.Valid() && wip in heap.nodes && currentlyRenderingFiber == Some(wip)
      requires i < |component.calls| && MountedRun(c0, chain, component.(calls := component.calls[..i]), wip)
      modifies this`workInProgressHook, this`chain, heap, (if workInProgressHook != null then {workInProgressHook} else {})`next
      ensures Valid() && heap.Valid() && heap.SameShape()
      ensures currentDispatcher.current.None? ==>
        r == Throw(DispatcherMissing) && chain == old(chain) && workInProgressHook == old(workInProgressHook)
      ensures currentDispatcher.current.Some? ==>
        && chain == old(chain) + [workInProgressHook] && fresh(workInProgressHook) && fresh(workInProgressHook.updateQueue)
        && MountedRun(c0, chain, component.(calls := component.calls[..i + 1]), wip)
        && r == Ok((InitialState(component.calls[i], component.invoke), BoundDispatch(Some(wip), workInProgressHook.updateQueue)))
      ensures heap.nodes == (if old(workInProgressHook) == null && currentDispatcher.current.Some?
        then old(heap.nodes)[wip := old(heap.nodes[wip]).(memoizedState := Ref(workInProgressHook))]
        else old(heap.nodes))
    {
      r := UseState(heap, component.calls[i], component.invoke);
      if r.Ok? {
        MountedRunStep(c0, old(chain), chain, component, i, wip);
      }
    }
  }

  /** The hooks of `chain`. */
  function Elements(chain: seq<Hook>): set<Hook> {
    set k | 0 <= k < |chain| :: chain[k]
  }

  /** The queues of the hooks of `chain`. */
  function Queues(chain: seq<Hook>): set<UpdateQueue?<Value>>
    reads Elements(chain)`updateQueue
  {
    set k | 0 <= k < |chain| :: chain[k].updateQueue
  }

  /**
   * `chain` is `before` followed by one hook per `useState` call of
   * `component`, each mounted with its initial state and bound to `wip`.
   */
  ghost predicate MountedRun(before: seq<Hook>, chain: seq<Hook>, component: ComponentBody, wip: FiberId)
    reads Elements(chain)`memoizedState, Elements(chain)`updateQueue, Queues(chain)
  {
    && |chain| == |before| + |component.calls| && chain[..|before|] == before
    && (forall k :: |before| <= k < |chain| ==>
          Mounted(chain[k], InitialState(component.calls[k - |before|], component.invoke), Some(wip)))
  }

  /** One more mounted hook extends the run by the next call. */
  lemma MountedRunStep(c0: seq<Hook>, ch: seq<Hook>, chain: seq<Hook>, component: ComponentBody, i: nat,
                       wip: FiberId)
    requires i < |component.calls| && MountedRun(c0, ch, component.(calls := component.calls[..i]), wip)
    requires |chain| == |ch| + 1 && chain[..|ch|] == ch
    requires Mounted(chain[|ch|], InitialState(component.calls[i], component.invoke), Some(wip))
    ensures MountedRun(c0, chain, component.(calls := component.calls[..i + 1]), wip)
  {
    forall k | |c0| <= k < |chain|
      ensures Mounted(chain[k], InitialState(component.calls[..i + 1][k - |c0|], component.invoke), Some(wip))
    {
      if k < |ch| {
        assert chain[k] == ch[k];
        assert component.calls[..i + 1][k - |c0|] == component.calls[..i][k - |c0|];
      }
    }
  }

  /**
   * The bound queue is kept apart from a host root's queue: it is another
   * queue, and its newest update is not on that queue's ring.
   */
  ghost predicate QueueApart(nodes: map<FiberId, Fiber>, w: FiberId, queue: UpdateQueue<Value>)
    reads queue, RootQueue(nodes, w)
  {
    w in nodes && nodes[w].tag == HostRoot && nodes[w].updateQueue != null ==>
      nodes[w].updateQueue != queue && (queue.pending == null || queue.pending !in nodes[w].updateQueue.ring)
  }

  /**
   * `dispatchSetState(fiber, queue, action)`, reached through the dispatch
   * value `mountState` stored on `queue`, which binds `fiber` and `queue`:
   * one update with the action and no lane is appended to the bound queue,
   * then an update is scheduled on the bound fiber; a null fiber fails
   * reading its `return`.
   */
  method DispatchSetState(loop: WorkLoop, heap: FiberHeap, host: Host, fiber: Option<FiberId>,
                          queue: UpdateQueue<Value>, action: Action<Value>)
    returns (r: Result<()>, ghost update: Update<Value>, ghost finished: FiberId, ghost rendered: Result<()>,
             ghost path: seq<FiberId>)
    requires heap.Valid() && RootsOk(heap) && queue.Valid()
    requires queue.dispatch == Some(BoundDispatch(fiber, queue))
    requires fiber.Some? ==> fiber.value in heap.nodes
    requires forall root :: root in heap.roots ==>
      RootQueueOk(heap.nodes, root.current) && QueueApart(heap.nodes, root.current, queue)
    modifies loop, heap, host, heap.roots, RootQueues(heap), queue, queue.pending
    ensures fresh(update) && update.action == action && update.lane == None
    ensures queue.ring == old(queue.ring) + [update] && queue.pending == update && queue.dispatch == old(queue.dispatch)
    ensures heap.Valid() && Grew(heap)
    ensures fiber.None? ==>
      r == Throw(ReturnOfNull) && heap.nodes == old(heap.nodes) && host.log == old(host.log) &&
      loop.workInProgress == old(loop.workInProgress) && loop.trace == old(loop.trace)
    ensures fiber.Some? ==> Scheduled(loop, heap, host, fiber.value, r, finished, rendered, path)
  {
    var u := new Update(action, None);
    EnqueueUpdate(queue, u);
    update := u;
    forall root | root in heap.roots
      ensures RootQueueOk(heap.nodes, root.current)
    {
      assert old(RootQueueOk(heap.nodes, root.current)) && old(QueueApart(heap.nodes, root.current, queue));
    }
    if fiber.None? {
      finished, rendered, path := 0, Ok(()), [];
      return Throw(ReturnOfNull), update, finished, rendered, path;
    }
    ApartFromRootQueues(heap, queue, u);
    r, finished, rendered, path := loop.ScheduleUpdateOnFiber(heap, host, fiber.value);
  }

  /** The bound queue and a new update are none of the roots' queues, which scheduling may change. */
  lemma ApartFromRootQueues(heap: FiberHeap, queue: UpdateQueue<Value>, u: Update<Value>)
    requires forall root :: root in heap.roots ==> QueueApart(heap.nodes, root.current, queue)
    ensures queue !in RootQueues(heap) && u !in RootQueues(heap)
  {
    forall root | root in heap.roots
      ensures queue !in RootQueue(heap.nodes, root.current)
    {
      assert QueueApart(heap.nodes, root.current, queue);
    }
  }

  /**
   * The updates `dispatchSetState` enqueues carry no lane, so whatever the
   * render lane, processing a queue of them leaves the base state as it was.
   */
  lemma {:induction false} DispatchedUpdatesNeverApply(baseState: Value, us: seq<Record<Value>>, renderLane: Option<Lane>)
    requires forall j :: 0 <= j < |us| ==> us[j].lane == None
    ensures NewState(baseState, us, renderLane) == baseState
  {
    NothingIncluded(baseState, us, renderLane);
  }

  /**
   * With the lane of `requestUpdateLane()` on the update, as React's
   * `dispatchSetState` does, a render whose lanes cover that lane includes
   * the update: a value dispatched last becomes the state.
   */
  lemma {:induction false} LanedUpdatesApply(baseState: Value, us: seq<Record<Value>>, renderLanes: Lanes,
                                             isTransition: bool, priority: SchedulerPriority, v: Value)
    requires IsSubsetOfLanes(renderLanes, RequestUpdateLane(isTransition, priority))
    ensures var lane := RequestUpdateLane(isTransition, priority);
      && Included(Some(renderLanes), Some(lane))
      && NewState(baseState, us + [Record(Replace(v), Some(lane))], Some(renderLanes)) == v
  {
    var lane := RequestUpdateLane(isTransition, priority);
    var all := us + [Record(Replace(v), Some(lane))];
    assert all[|all| - 1] == Record(Replace(v), Some(lane));
  }
}
