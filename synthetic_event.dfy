/**
 * Event delegation (packages/react-dom/src/SyntheticEvent.ts). A listener
 * on the container collects, from the event's target up to the container,
 * the capture callbacks outermost first and the bubble callbacks innermost
 * first, and calls them with a synthetic event whose `stopPropagation` sets a
 * flag that cuts the flow short.
 *
 * The DOM is an arena of nodes, each with its `parentNode` and the props
 * stored under `__props` (`Undefined` when none were stored). Callbacks are
 * values; whether a callback calls `event.stopPropagation()` is the
 * parameter `callsStop`.
 */
module SyntheticEvents {
  import opened Wrappers
  import opened ReactTypes

  type NodeId = nat

  datatype DomNode = DomNode(parentNode: Option<NodeId>, props: Value)

  type Dom = map<NodeId, DomNode>

  /** `chain` lists `node` and its ancestors in order, up to one without a parent. */
  ghost predicate AncestorChain(dom: Dom, node: NodeId, chain: seq<NodeId>) {
    && chain != [] && chain[0] == node
    && (forall i :: 0 <= i < |chain| ==> chain[i] in dom)
    && (forall i, j :: 0 <= i < |chain| - 1 && j == i + 1 ==> dom[chain[i]].parentNode == Some(chain[j]))
    && dom[chain[|chain| - 1]].parentNode == None
  }

  /** The event types with a listener, `validEventTypeList`. */
  const ValidEventTypes: seq<string> := ["click"]

  /**
   * `getEventCallbackNameFromEventType`: the capture and bubble prop names of
   * a click, and `undefined` for every other event type.
   */
  function GetEventCallbackNames(eventType: string): (r: Option<seq<string>>)
    ensures r.Some? <==> eventType == "click"
    ensures r.Some? ==> r.value == ["onClickCapture", "onClick"]
  {
    if eventType == "click" then Some(["onClickCapture", "onClick"]) else None
  }

  /** The nodes `collectPaths` visits: the chain up to, and without, the container. */
  function Visited(chain: seq<NodeId>, container: NodeId): (v: seq<NodeId>)
    ensures |v| <= |chain| && v == chain[..|v|]
    ensures container !in v
    ensures |v| < |chain| ==> chain[|v|] == container
  {
    if chain == [] || chain[0] == container then []
    else [chain[0]] + Visited(chain[1..], container)
  }

  /** The callback props hold under `name`, when the props and the callback are truthy. */
  function CallbackIn(props: Value, name: string): Option<Value> {
    if Truthy(props) && Truthy(GetOptional(props, name)) then Some(GetOptional(props, name)) else None
  }

  function CallbackOf(dom: Dom, node: NodeId, name: string): Option<Value>
    requires node in dom
  {
    CallbackIn(dom[node].props, name)
  }

  /** The one-element list of a present callback, or the empty list. */
  function AsList(cb: Option<Value>): seq<Value> {
    if cb.Some? then [cb.value] else []
  }

  /** The callbacks the nodes hold under `name`, in the nodes' order. */
  function Callbacks(dom: Dom, nodes: seq<NodeId>, name: string): seq<Value>
    requires forall i :: 0 <= i < |nodes| ==> nodes[i] in dom
  {
    if nodes == [] then []
    else
      var rest := Callbacks(dom, nodes[1..], name);
      match CallbackOf(dom, nodes[0], name)
      case Some(cb) => [cb] + rest
      case None => rest
  }

  function Reverse<T>(s: seq<T>): (r: seq<T>)
    ensures |r| == |s| && forall i :: 0 <= i < |s| ==> r[i] == s[|s| - 1 - i]
  {
    if s == [] then [] else Reverse(s[1..]) + [s[0]]
  }

  /** `paths`: the capture and bubble callbacks. */
  datatype Paths = Paths(capture: seq<Value>, bubble: seq<Value>)

  /**
   * One visit of the loop: when the props are truthy and the event type has
   * callback names, the capture callback is put in front (`unshift`) and the
   * bubble callback at the end (`push`).
   */
  method CollectFromNode(paths: Paths, elementProps: Value, eventType: string) returns (r: Paths)
    ensures eventType != "click" ==> r == paths
    ensures eventType == "click" ==>
      r.capture == AsList(CallbackIn(elementProps, "onClickCapture")) + paths.capture &&
      r.bubble == paths.bubble + AsList(CallbackIn(elementProps, "onClick"))
  {
    r := paths;
    if Truthy(elementProps) {
      var callbackNameList := GetEventCallbackNames(eventType);
      if callbackNameList.Some? {
        var names := callbackNameList.value;
        var index := 0;
        while index < |names|
          invariant 0 <= index <= 2 && names == ["onClickCapture", "onClick"]
          invariant r.capture == (if index >= 1 then AsList(CallbackIn(elementProps, "onClickCapture")) else []) + paths.capture
          invariant r.bubble == paths.bubble + (if index >= 2 then AsList(CallbackIn(elementProps, "onClick")) else [])
        {
          var eventCallback := GetOptional(elementProps, names[index]);
          if Truthy(eventCallback) {
            if index == 0 {
              r := r.(capture := [eventCallback] + r.capture);
            } else {
              r := r.(bubble := r.bubble + [eventCallback]);
            }
          }
          index := index + 1;
        }
      }
    }
  }

  /**
   * `collectPaths(target, container, eventType)`: capture callbacks
   * outermost first (`unshift`), bubble callbacks innermost first (`push`),
   * over the visited nodes.
   */
  method CollectPaths(dom: Dom, target: NodeId, container: NodeId, eventType: string, ghost chain: seq<NodeId>)
    returns (paths: Paths)
    requires AncestorChain(dom, target, chain)
    ensures GetEventCallbackNames(eventType).None? ==> paths == Paths([], [])
    ensures eventType == "click" ==>
      paths.capture == Reverse(Callbacks(dom, Visited(chain, container), "onClickCapture")) &&
      paths.bubble == Callbacks(dom, Visited(chain, container), "onClick")
  {
    paths := Paths([], []);
    var element := Some(target);
    ghost var i := 0;
    ghost var visited := Visited(chain, container);
    while element.Some? && element.value != container
      invariant 0 <= i <= |visited|
      invariant i < |chain| ==> element == Some(chain[i])
      invariant i == |chain| ==> element == None
      invariant i < |visited| ==> element.Some? && element.value != container
      invariant i == |visited| ==> element == None || element == Some(container)
      invariant GetEventCallbackNames(eventType).None? ==> paths == Paths([], [])
      invariant eventType == "click" ==>
        paths.capture == Reverse(Callbacks(dom, visited[..i], "onClickCapture")) &&
        paths.bubble == Callbacks(dom, visited[..i], "onClick")
      decreases |chain| - i
    {
      var node := element.value;
      assert node == visited[i];
      CallbacksOfPrefix(dom, visited, i, "onClickCapture");
      CallbacksOfPrefix(dom, visited, i, "onClick");
      paths := CollectFromNode(paths, dom[node].props, eventType);
      element := dom[node].parentNode;
      i := i + 1;
    }
    assert visited[..i] == visited;
  }

  /** Adding a node at the inner end of the visited nodes adds its callback at the end. */
  lemma {:induction false} CallbacksSnoc(dom: Dom, nodes: seq<NodeId>, node: NodeId, name: string)
    requires forall i :: 0 <= i < |nodes| ==> nodes[i] in dom
    requires node in dom
    ensures Callbacks(dom, nodes + [node], name) == Callbacks(dom, nodes, name) + AsList(CallbackOf(dom, node, name))
    ensures Reverse(Callbacks(dom, nodes + [node], name)) ==
      AsList(CallbackOf(dom, node, name)) + Reverse(Callbacks(dom, nodes, name))
    decreases |nodes|
  {
    if nodes != [] {
      assert (nodes + [node])[1..] == nodes[1..] + [node];
      CallbacksSnoc(dom, nodes[1..], node, name);
    } else {
      assert Callbacks(dom, [], name) == [];
      assert [node][1..] == [];
    }
    var a := Callbacks(dom, nodes, name);
    ReverseAppend(a, AsList(CallbackOf(dom, node, name)));
  }

  /** `CallbacksSnoc` on the prefixes of `nodes`. */
  lemma CallbacksOfPrefix(dom: Dom, nodes: seq<NodeId>, i: nat, name: string)
    requires i < |nodes| && forall j :: 0 <= j < |nodes| ==> nodes[j] in dom
    ensures Callbacks(dom, nodes[..i + 1], name) == Callbacks(dom, nodes[..i], name) + AsList(CallbackOf(dom, nodes[i], name))
    ensures Reverse(Callbacks(dom, nodes[..i + 1], name)) ==
      AsList(CallbackOf(dom, nodes[i], name)) + Reverse(Callbacks(dom, nodes[..i], name))
  {
    assert nodes[..i + 1] == nodes[..i] + [nodes[i]];
    CallbacksSnoc(dom, nodes[..i], nodes[i], name);
  }

  lemma ReverseAppend<T>(a: seq<T>, b: seq<T>)
    ensures Reverse(a + b) == Reverse(b) + Reverse(a)
  {
    var l := a + b;
    assert forall i :: 0 <= i < |l| ==> Reverse(l)[i] == (Reverse(b) + Reverse(a))[i];
  }

  const NotCallable := "TypeError: eventCallback.call is not a function"
  const IllegalInvocation := "TypeError: Illegal invocation"
  const CallbackError := "the error the callback throws"

  /**
   * Whether `eventCallback.call(null, event)` reaches a function: a
   * function's `call` is `Function.prototype.call`, and an object runs the
   * function under its own `call` property. On every other value `call` is
   * undefined, so the call is a TypeError.
   */
  predicate Callable(cb: Value) {
    cb.Fn? || (cb.Obj? && "call" in cb.fields && cb.fields["call"].Fn?)
  }

  /**
   * What a callback does when it runs: whether it calls
   * `event.stopPropagation()`, and whether it throws on its own account. A
   * callback does not catch what `stopPropagation` throws.
   */
  datatype CallbackEffects = CallbackEffects(callsStop: Value -> bool, throws: Value -> bool)

  /**
   * A native event as seen by the listener. `createSyntheticEvent` turns it
   * into the synthetic event in place: `wrapped` records that its
   * `stopPropagation` was replaced, `stopFlag` is `__stopPropagation`, and
   * `calls` lists the callbacks called with the event, in order.
   * `hasOriginStop` says whether the event has a native `stopPropagation`,
   * as every DOM event does.
   */
  class NativeEvent {
    const target: Option<NodeId>
    const hasOriginStop: bool
    var wrapped: bool
    var stopFlag: bool
    var calls: seq<Value>

    constructor (target: Option<NodeId>, hasOriginStop: bool)
      ensures this.target == target && this.hasOriginStop == hasOriginStop
      ensures !wrapped && !stopFlag && calls == []
    {
      this.target := target;
      this.hasOriginStop := hasOriginStop;
      wrapped := false;
      stopFlag := false;
      calls := [];
    }

    /**
     * `event.stopPropagation()`. Before wrapping it is the native method,
     * called on the event. The synthetic one sets the flag and then calls
     * the saved native method without a receiver, which a DOM event rejects
     * with a TypeError.
     */
    method StopPropagation() returns (r: Result<()>)
      modifies this
      ensures wrapped == old(wrapped) && calls == old(calls)
      ensures stopFlag == (old(wrapped) || old(stopFlag))
      ensures r == if old(wrapped) && hasOriginStop then Throw(IllegalInvocation) else Ok(())
    {
      if wrapped {
        stopFlag := true;
        if hasOriginStop {
          return Throw(IllegalInvocation);
        }
      }
      r := Ok(());
    }

    /**
     * The intended synthetic `stopPropagation`, which calls the saved native
     * method on the event (`originStopPropagation.call(e)`): the flag is set
     * and nothing is thrown.
     */
    method IntendedStopPropagation() returns (r: Result<()>)
      modifies this
      ensures wrapped == old(wrapped) && calls == old(calls)
      ensures stopFlag == (old(wrapped) || old(stopFlag))
      ensures r == Ok(())
    {
      if wrapped {
        stopFlag := true;
      }
      r := Ok(());
    }
  }

  /** `createSyntheticEvent(e)`: the flag starts false and `stopPropagation` is wrapped. */
  method CreateSyntheticEvent(e: NativeEvent)
    modifies e
    ensures e.wrapped && !e.stopFlag && e.calls == old(e.calls)
  {
    e.stopFlag := false;
    e.wrapped := true;
  }

  /** The end of `triggerEventFlow`: the callbacks called, the stop flag, and how it returns. */
  datatype Flow = Flow(calls: seq<Value>, stopFlag: bool, result: Result<()>)

  /** `calls` run before the flow `f`. */
  function AfterCalls(calls: seq<Value>, f: Flow): Flow {
    f.(calls := calls + f.calls)
  }

  /**
   * Running one callable callback with the stop flag `stopFlag`: the call,
   * the flag afterwards, and how the call returns. Stopping the event sets the flag
   * and is a TypeError when the event has a native `stopPropagation`
   * (`nativeStop`); a callback that throws on its own does so after any stop.
   */
  function RunCallback(cb: Value, stopFlag: bool, fx: CallbackEffects, nativeStop: bool): Flow {
    if fx.callsStop(cb) && nativeStop then Flow([cb], true, Throw(IllegalInvocation))
    else if fx.throws(cb) then Flow([cb], stopFlag || fx.callsStop(cb), Throw(CallbackError))
    else Flow([cb], stopFlag || fx.callsStop(cb), Ok(()))
  }

  /**
   * `triggerEventFlow` on callbacks `paths`, with the stop flag `stopFlag`
   * at the start. A value that cannot be called ends the flow with a
   * TypeError before it runs; a callback that runs and then leaves the flag
   * set, or throws, is the last one.
   */
  function FlowOf(paths: seq<Value>, stopFlag: bool, fx: CallbackEffects, nativeStop: bool): Flow
    decreases |paths|
  {
    if paths == [] then Flow([], stopFlag, Ok(()))
    else if !Callable(paths[0]) then Flow([], stopFlag, Throw(NotCallable))
    else
      var run := RunCallback(paths[0], stopFlag, fx, nativeStop);
      if run.result.Throw? || run.stopFlag then run
      else AfterCalls([paths[0]], FlowOf(paths[1..], false, fx, nativeStop))
  }

  /** A callback that can run, and neither stops the event nor throws. */
  predicate Quiet(cb: Value, fx: CallbackEffects) {
    Callable(cb) && !fx.callsStop(cb) && !fx.throws(cb)
  }

  /**
   * `triggerEventFlow(paths, syntheticEvent)`: calls the callbacks in order
   * and ends right after one leaves the flag set, or with what is thrown.
   */
  method TriggerEventFlow(paths: seq<Value>, e: NativeEvent, fx: CallbackEffects) returns (r: Result<()>)
    requires e.wrapped
    modifies e
    ensures e.wrapped
    ensures var f := FlowOf(paths, old(e.stopFlag), fx, e.hasOriginStop);
      e.calls == old(e.calls) + f.calls && e.stopFlag == f.stopFlag && r == f.result
  {
    ghost var flag0 := e.stopFlag;
    ghost var calls0 := e.calls;
    var i := 0;
    while i < |paths|
      invariant 0 <= i <= |paths| && e.wrapped
      invariant e.calls == calls0 + paths[..i]
      invariant forall j :: 0 <= j < i ==> Quiet(paths[j], fx)
      invariant i == 0 ==> e.stopFlag == flag0
      invariant i > 0 ==> !e.stopFlag && !flag0
      decreases |paths| - i
    {
      var eventCallback := paths[i];
      ghost var flag := e.stopFlag;
      FlowSkipQuiet(paths, flag0, fx, e.hasOriginStop, i);
      FlowUnfold(paths, i, flag, fx, e.hasOriginStop, paths[..i]);
      if !Callable(eventCallback) {
        return Throw(NotCallable);
      }
      r := CallCallback(eventCallback, e, fx);
      assert paths[..i + 1] == paths[..i] + [eventCallback];
      if r.Throw? || e.stopFlag {
        return;
      }
      i := i + 1;
    }
    FlowSkipQuiet(paths, flag0, fx, e.hasOriginStop, i);
    assert paths[..i] == paths && paths[i..] == [] && paths + [] == paths;
    r := Ok(());
  }

  /** Quiet callbacks run one after another: the flow goes on past them with the flag clear. */
  lemma {:induction false} FlowSkipQuiet(paths: seq<Value>, stopFlag: bool, fx: CallbackEffects, nativeStop: bool, i: nat)
    requires i <= |paths| && forall j :: 0 <= j < i ==> Quiet(paths[j], fx)
    requires i > 0 ==> !stopFlag
    ensures FlowOf(paths, stopFlag, fx, nativeStop) ==
      AfterCalls(paths[..i], FlowOf(paths[i..], stopFlag, fx, nativeStop))
    decreases i
  {
    if i == 0 {
      assert paths[..0] == [] && paths[0..] == paths;
      var f := FlowOf(paths, stopFlag, fx, nativeStop);
      assert [] + f.calls == f.calls;
    } else {
      assert Quiet(paths[0], fx);
      var rest := paths[1..];
      assert FlowOf(paths, false, fx, nativeStop) == AfterCalls([paths[0]], FlowOf(rest, false, fx, nativeStop));
      forall j | 0 <= j < i - 1 ensures Quiet(rest[j], fx) {
        assert rest[j] == paths[j + 1];
      }
      FlowSkipQuiet(rest, false, fx, nativeStop, i - 1);
      assert rest[i - 1..] == paths[i..];
      AfterCallsAssoc([paths[0]], rest[..i - 1], FlowOf(paths[i..], false, fx, nativeStop));
      assert paths[..i] == [paths[0]] + rest[..i - 1];
    }
  }

  lemma AfterCallsAssoc(a: seq<Value>, b: seq<Value>, f: Flow)
    ensures AfterCalls(a, AfterCalls(b, f)) == AfterCalls(a + b, f)
  {
    assert a + (b + f.calls) == (a + b) + f.calls;
  }

  /**
   * One step of the flow at index `i`, after the calls `pre`: what it ends
   * with, or that the flow goes on with `pre` and `paths[i]` called.
   */
  lemma FlowUnfold(paths: seq<Value>, i: nat, flag: bool, fx: CallbackEffects, nativeStop: bool, pre: seq<Value>)
    requires i < |paths|
    ensures var f := AfterCalls(pre, FlowOf(paths[i..], flag, fx, nativeStop));
      var cb := paths[i];
      var run := RunCallback(cb, flag, fx, nativeStop);
      && (!Callable(cb) ==> f == Flow(pre, flag, Throw(NotCallable)))
      && (Callable(cb) && (run.result.Throw? || run.stopFlag) ==> f == AfterCalls(pre, run))
      && (Callable(cb) && run.result.Ok? && !run.stopFlag ==> f == AfterCalls(pre + [cb], FlowOf(paths[i + 1..], false, fx, nativeStop)))
  {
    assert paths[i..][0] == paths[i] && paths[i..][1..] == paths[i + 1..];
    var g := FlowOf(paths[i + 1..], false, fx, nativeStop);
    assert pre + ([paths[i]] + g.calls) == (pre + [paths[i]]) + g.calls;
    assert pre + [] == pre;
  }

  /** `eventCallback.call(null, syntheticEvent)` on a callable callback. */
  method CallCallback(cb: Value, e: NativeEvent, fx: CallbackEffects) returns (r: Result<()>)
    requires Callable(cb) && e.wrapped
    modifies e
    ensures var run := RunCallback(cb, old(e.stopFlag), fx, e.hasOriginStop);
      e.wrapped && e.calls == old(e.calls) + run.calls && e.stopFlag == run.stopFlag && r == run.result
  {
    e.calls := e.calls + [cb];
    if fx.callsStop(cb) {
      r := e.StopPropagation();
      if r.Throw? {
        return;
      }
    }
    if fx.throws(cb) {
      return Throw(CallbackError);
    }
    r := Ok(());
  }

  /**
   * The flow ends with the first callback that stops the event, after every
   * quiet callback before it; the stop is a TypeError when the event has a
   * native `stopPropagation`.
   */
  lemma {:induction false} FlowStopsAt(paths: seq<Value>, fx: CallbackEffects, nativeStop: bool, k: nat)
    requires k < |paths| && forall j :: 0 <= j < k ==> Quiet(paths[j], fx)
    requires Callable(paths[k]) && fx.callsStop(paths[k]) && !fx.throws(paths[k])
    ensures FlowOf(paths, false, fx, nativeStop) ==
      Flow(paths[..k + 1], true, if nativeStop then Throw(IllegalInvocation) else Ok(()))
    decreases k
  {
    if k > 0 {
      FlowStopsAt(paths[1..], fx, nativeStop, k - 1);
      assert paths[..k + 1] == [paths[0]] + paths[1..][..k];
    }
  }

  /** When every callback is quiet, every one runs, the flag stays clear and the flow returns. */
  lemma {:induction false} FlowRunsAll(paths: seq<Value>, fx: CallbackEffects, nativeStop: bool)
    requires forall j :: 0 <= j < |paths| ==> Quiet(paths[j], fx)
    ensures FlowOf(paths, false, fx, nativeStop) == Flow(paths, false, Ok(()))
    decreases |paths|
  {
    if paths != [] {
      FlowRunsAll(paths[1..], fx, nativeStop);
      assert paths == [paths[0]] + paths[1..];
    }
  }

  /**
   * A value that cannot be called ends the flow with a TypeError: the quiet
   * callbacks before it have run, and neither it nor any later one does.
   */
  lemma {:induction false} FlowThrowsAt(paths: seq<Value>, fx: CallbackEffects, nativeStop: bool, k: nat)
    requires k < |paths| && forall j :: 0 <= j < k ==> Quiet(paths[j], fx)
    requires !Callable(paths[k])
    ensures FlowOf(paths, false, fx, nativeStop) == Flow(paths[..k], false, Throw(NotCallable))
    decreases k
  {
    if k > 0 {
      FlowThrowsAt(paths[1..], fx, nativeStop, k - 1);
      assert paths[..k] == [paths[0]] + paths[1..][..k - 1];
    }
  }

  /**
   * Over all inputs, the callbacks called are a prefix of `paths`, each of
   * them callable and every one before the last quiet; the flow returns with
   * the flag clear only when every callback ran.
   */
  lemma {:induction false} FlowIsPrefix(paths: seq<Value>, stopFlag: bool, fx: CallbackEffects, nativeStop: bool)
    ensures var f := FlowOf(paths, stopFlag, fx, nativeStop);
      && |f.calls| <= |paths| && f.calls == paths[..|f.calls|]
      && (forall j :: 0 <= j < |f.calls| ==> Callable(f.calls[j]))
      && (forall j :: 0 <= j < |f.calls| - 1 ==> Quiet(f.calls[j], fx))
      && (f.result.Ok? && !f.stopFlag ==> f.calls == paths)
    decreases |paths|
  {
    if paths != [] && Quiet(paths[0], fx) && !stopFlag {
      FlowIsPrefix(paths[1..], false, fx, nativeStop);
      var rest := FlowOf(paths[1..], false, fx, nativeStop);
      assert [paths[0]] + rest.calls == paths[..1 + |rest.calls|];
      assert paths == [paths[0]] + paths[1..];
    }
  }

  /** A click whose callbacks are `[1, f]` throws at `1`, so `f` never runs. */
  lemma NonFunctionCallbackThrows(fx: CallbackEffects, nativeStop: bool)
    ensures FlowOf([Num(1), Fn(2)], false, fx, nativeStop) == Flow([], false, Throw(NotCallable))
  {
  }

  /** The listeners registered on containers, `addEventListener(eventType, …)`. */
  datatype Listener = Listener(container: NodeId, eventType: string)

  class EventSystem {
    var listeners: seq<Listener>

    constructor ()
      ensures listeners == []
    {
      listeners := [];
    }

    /** `initEvent(container, eventType)`: only `'click'` gets a listener. */
    method InitEvent(container: NodeId, eventType: string)
      modifies this
      ensures eventType in ValidEventTypes ==> listeners == old(listeners) + [Listener(container, eventType)]
      ensures eventType !in ValidEventTypes ==> listeners == old(listeners)
    {
      if eventType !in ValidEventTypes {
        return;
      }
      listeners := listeners + [Listener(container, eventType)];
    }
  }

  /**
   * `dispatchEvent(container, eventType, e)`: nothing without a target;
   * otherwise the capture flow and then, unless capture stopped the event
   * or threw, the bubble flow. What a flow throws ends the dispatch. The
   * target's ancestors are `chain`.
   */
  method DispatchEvent(dom: Dom, container: NodeId, eventType: string, e: NativeEvent,
                       fx: CallbackEffects, ghost chain: seq<NodeId>) returns (r: Result<()>)
    requires e.target.Some? ==> AncestorChain(dom, e.target.value, chain)
    modifies e
    ensures e.target.None? ==>
      r == Ok(()) && e.calls == old(e.calls) && e.stopFlag == old(e.stopFlag) && e.wrapped == old(e.wrapped)
    ensures e.target.Some? ==> e.wrapped
    ensures e.target.Some? && eventType != "click" ==> r == Ok(()) && e.calls == old(e.calls) && !e.stopFlag
    ensures e.target.Some? && eventType == "click" ==>
      var visited := Visited(chain, container);
      var capture := FlowOf(Reverse(Callbacks(dom, visited, "onClickCapture")), false, fx, e.hasOriginStop);
      var bubble := FlowOf(Callbacks(dom, visited, "onClick"), false, fx, e.hasOriginStop);
      if capture.result.Throw? || capture.stopFlag then
        r == capture.result && e.calls == old(e.calls) + capture.calls && e.stopFlag == capture.stopFlag
      else
        r == bubble.result && e.calls == old(e.calls) + capture.calls + bubble.calls && e.stopFlag == bubble.stopFlag
  {
    if e.target.None? {
      return Ok(());
    }
    var paths := CollectPaths(dom, e.target.value, container, eventType, chain);
    CreateSyntheticEvent(e);
    r := TriggerEventFlow(paths.capture, e, fx);
    if r.Throw? {
      return;
    }
    if !e.stopFlag {
      r := TriggerEventFlow(paths.bubble, e, fx);
    }
  }

  /**
   * The receiver-less native call changes only the outcome of a flow. With
   * the native method called on the event, as intended, a flow makes the
   * same calls and leaves the same flag; the two outcomes differ only where
   * the call as written throws the TypeError, and that flow was stopped.
   */
  lemma {:induction false} BoundStopOnlyChangesResult(paths: seq<Value>, stopFlag: bool, fx: CallbackEffects)
    ensures FlowOf(paths, stopFlag, fx, true).calls == FlowOf(paths, stopFlag, fx, false).calls
    ensures FlowOf(paths, stopFlag, fx, true).stopFlag == FlowOf(paths, stopFlag, fx, false).stopFlag
    ensures FlowOf(paths, stopFlag, fx, true).result == FlowOf(paths, stopFlag, fx, false).result ||
      (FlowOf(paths, stopFlag, fx, true).result == Throw(IllegalInvocation) && FlowOf(paths, stopFlag, fx, false).stopFlag)
    decreases |paths|
  {
    if paths != [] && Callable(paths[0]) && !fx.callsStop(paths[0]) {
      BoundStopOnlyChangesResult(paths[1..], false, fx);
    }
  }

  /** A first capture callback that stops the event is the only one that runs. */
  lemma CaptureStopSkipsBubble(capture: seq<Value>, fx: CallbackEffects)
    requires capture != [] && Callable(capture[0]) && fx.callsStop(capture[0]) && !fx.throws(capture[0])
    ensures FlowOf(capture, false, fx, false) == Flow([capture[0]], true, Ok(()))
  {
  }
}
