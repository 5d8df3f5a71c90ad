/**
 * The context value stack (packages/react-reconciler/src/fiberContext.ts).
 * A provider saves the context's current value in the module-level
 * `prevContextValue`, whose own previous contents go onto
 * `prevContextStack`; popping restores them in reverse order.
 */
module FiberContext {
  import opened ReactTypes

  /** `ReactContext<T>`: only `_currentValue` is read or written here. */
  class ReactContext {
    var currentValue: Value

    constructor (defaultValue: Value)
      ensures currentValue == defaultValue
    {
      currentValue := defaultValue;
    }
  }

  /**
   * The abstract state of the providers: the current value of every context
   * in `values`, the saved value and the stack of older saved values.
   */
  datatype Providers<C> = Providers(values: map<C, Value>, prev: Value, stack: seq<Value>)

  /** `pushProvider(context, newValue)` on the abstract state. */
  function Push<C>(s: Providers<C>, c: C, newValue: Value): (r: Providers<C>)
    requires c in s.values
    ensures c in r.values && r.values[c] == newValue
    ensures r.values.Keys == s.values.Keys
    ensures forall d :: d in s.values && d != c ==> r.values[d] == s.values[d]
    ensures r.prev == s.values[c]
    ensures |r.stack| == |s.stack| + 1 && r.stack[..|s.stack|] == s.stack && r.stack[|s.stack|] == s.prev
  {
    Providers(s.values[c := newValue], s.values[c], s.stack + [s.prev])
  }

  /**
   * `popProvider(context)` on the abstract state. `Array.prototype.pop` on
   * an empty stack gives `undefined`.
   */
  function Pop<C>(s: Providers<C>, c: C): (r: Providers<C>)
    requires c in s.values
    ensures c in r.values && r.values[c] == s.prev
    ensures r.values.Keys == s.values.Keys
    ensures forall d :: d in s.values && d != c ==> r.values[d] == s.values[d]
    ensures s.stack != [] ==> r.prev == s.stack[|s.stack| - 1] && r.stack == s.stack[..|s.stack| - 1]
    ensures s.stack == [] ==> r.prev == Undefined && r.stack == []
  {
    if s.stack == [] then Providers(s.values[c := s.prev], Undefined, [])
    else Providers(s.values[c := s.prev], s.stack[|s.stack| - 1], s.stack[..|s.stack| - 1])
  }

  /** The module-level `prevContextValue` and `prevContextStack`. */
  class ProviderStack {
    var prevContextValue: Value
    var prevContextStack: seq<Value>

    /** The module's initial state: `null` and `[]`. */
    constructor ()
      ensures prevContextValue == Null && prevContextStack == []
    {
      prevContextValue := Null;
      prevContextStack := [];
    }

    /** The abstract state seen through the contexts `cs`. */
    ghost function State(cs: set<ReactContext>): Providers<ReactContext>
      reads this, cs
    {
      Providers(map c | c in cs :: c.currentValue, prevContextValue, prevContextStack)
    }

    /** `pushProvider(context, newValue)`. */
    method PushProvider(context: ReactContext, newValue: Value, ghost cs: set<ReactContext>)
      requires context in cs
      modifies this, context
      ensures context.currentValue == newValue
      ensures prevContextValue == old(context.currentValue)
      ensures prevContextStack == old(prevContextStack) + [old(prevContextValue)]
      ensures State(cs) == Push(old(State(cs)), context, newValue)
    {
      prevContextStack := prevContextStack + [prevContextValue];
      prevContextValue := context.currentValue;
      context.currentValue := newValue;
    }

    /** `popProvider(context)`. */
    method PopProvider(context: ReactContext, ghost cs: set<ReactContext>)
      requires context in cs
      modifies this, context
      ensures context.currentValue == old(prevContextValue)
      ensures old(prevContextStack) != [] ==>
        prevContextValue == old(prevContextStack[|prevContextStack| - 1]) &&
        prevContextStack == old(prevContextStack[..|prevContextStack| - 1])
      ensures old(prevContextStack) == [] ==> prevContextValue == Undefined && prevContextStack == []
      ensures State(cs) == Pop(old(State(cs)), context)
    {
      context.currentValue := prevContextValue;
      if prevContextStack == [] {
        prevContextValue := Undefined;
      } else {
        prevContextValue := prevContextStack[|prevContextStack| - 1];
        prevContextStack := prevContextStack[..|prevContextStack| - 1];
      }
    }
  }

  // ---------------------------------------------------------------------------
  // Properties of the abstract state.

  /** A pop right after a push on the same context restores the state exactly. */
  lemma PopAfterPush<C>(s: Providers<C>, c: C, v: Value)
    requires c in s.values
    ensures Pop(Push(s, c, v), c) == s
  {
    var p := Push(s, c, v);
    assert p.stack[..|p.stack| - 1] == s.stack;
    assert s.values[c := v][c := s.values[c]] == s.values;
  }

  /** Each push grows the stack by one, and each pop on a non-empty stack shrinks it by one. */
  lemma StackSizes<C>(s: Providers<C>, c: C, v: Value)
    requires c in s.values
    ensures |Push(s, c, v).stack| == |s.stack| + 1
    ensures s.stack != [] ==> |Pop(s, c).stack| == |s.stack| - 1
  {
  }

  /** A tree of providers: `Provide(c, v, body)` pushes `v` on `c`, runs `body`, then pops `c`. */
  datatype ProviderTree<C> = Provide(context: C, value: Value, body: seq<ProviderTree<C>>)

  predicate AllIn<C>(trees: seq<ProviderTree<C>>, keys: set<C>)
    decreases trees
  {
    forall i :: 0 <= i < |trees| ==> trees[i].context in keys && AllIn(trees[i].body, keys)
  }

  function RunTree<C>(s: Providers<C>, t: ProviderTree<C>): Providers<C>
    requires t.context in s.values && AllIn(t.body, s.values.Keys)
    decreases t, 1
  {
    var inner := RunTrees(Push(s, t.context, t.value), t.body);
    if t.context in inner.values then Pop(inner, t.context) else inner
  }

  function RunTrees<C>(s: Providers<C>, ts: seq<ProviderTree<C>>): Providers<C>
    requires AllIn(ts, s.values.Keys)
    decreases ts, 0
  {
    if ts == [] then s
    else
      var first := RunTree(s, ts[0]);
      if first.values.Keys == s.values.Keys then RunTrees(first, ts[1..]) else first
  }

  /**
   * Nested providers restore in LIFO order: running any forest of properly
   * nested push/pop pairs gives back the state it started from.
   */
  lemma {:induction false} NestedProvidersRestore<C>(s: Providers<C>, ts: seq<ProviderTree<C>>)
    requires AllIn(ts, s.values.Keys)
    ensures RunTrees(s, ts) == s
    decreases ts, 0
  {
    if ts != [] {
      TreeRestores(s, ts[0]);
      assert AllIn(ts[1..], s.values.Keys) by {
        forall i | 0 <= i < |ts[1..]| ensures ts[1..][i].context in s.values.Keys && AllIn(ts[1..][i].body, s.values.Keys) {
          assert ts[1..][i] == ts[i + 1];
        }
      }
      NestedProvidersRestore(s, ts[1..]);
    }
  }

  lemma {:induction false} TreeRestores<C>(s: Providers<C>, t: ProviderTree<C>)
    requires t.context in s.values && AllIn(t.body, s.values.Keys)
    ensures RunTree(s, t) == s
    decreases t, 1
  {
    var p := Push(s, t.context, t.value);
    NestedProvidersRestore(p, t.body);
    PopAfterPush(s, t.context, t.value);
  }
}
