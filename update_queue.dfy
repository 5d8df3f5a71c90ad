/**
 * The update queue (packages/react-reconciler/src/updateQueue.ts). Pending
 * updates form a circular singly linked ring whose `pending` field holds the
 * newest update, so that `pending.next` is the oldest. The ghost sequence
 * `ring` lists the ring from oldest to newest.
 */
module UpdateQueues {
  import opened Wrappers
  import opened Lanes

  /** `Action<State>`: a new state, or a function of the state (`action instanceof Function`). */
  datatype Action<!S> = Replace(value: S) | Apply(f: S -> S)

  /**
   * `dispatchSetState.bind(null, fiber, queue)`, the dispatch function stored
   * on a hook's queue, known by the fiber (None for `null`) and the queue it
   * is bound to.
   */
  datatype Dispatch = BoundDispatch(fiber: Option<nat>, queue: object)

  /**
   * An update record. Its lane is an `Option` because `createUpdate(action)`
   * called with one argument leaves the lane `undefined`.
   */
  class Update<S> {
    var action: Action<S>
    var lane: Option<Lane>
    var next: Update?<S>

    /** `createUpdate(action, lane)`. */
    constructor (action: Action<S>, lane: Option<Lane>)
      ensures this.action == action && this.lane == lane && next == null
    {
      this.action := action;
      this.lane := lane;
      this.next := null;
    }
  }

  /** `last` is the newest element of the well-formed ring `ring`. */
  ghost predicate IsRing<S>(last: Update?<S>, ring: seq<Update<S>>)
    reads ring
  {
    && (last == null <==> ring == [])
    && (last != null ==> last == ring[|ring| - 1])
    && (forall i, j :: 0 <= i < j < |ring| ==> ring[i] != ring[j])
    && (forall i, j :: 0 <= i < |ring| - 1 && j == i + 1 ==> ring[i].next == ring[j])
    && (ring != [] ==> ring[|ring| - 1].next == ring[0])
  }

  class UpdateQueue<S> {
    /** `shared.pending`. */
    var pending: Update?<S>
    var dispatch: Option<Dispatch>
    ghost var ring: seq<Update<S>>

    ghost predicate Valid()
      reads this, ring
    {
      IsRing(pending, ring)
    }

    /** `createUpdateQueue()`. */
    constructor ()
      ensures pending == null && dispatch == None && ring == []
      ensures Valid()
    {
      pending := null;
      dispatch := None;
      ring := [];
    }
  }

  /**
   * `enqueueUpdate`: the new update becomes `pending`, and the ring read
   * from `pending.next` is the old ring followed by the new update. On an
   * empty queue the update points to itself.
   */
  method EnqueueUpdate<S>(queue: UpdateQueue<S>, update: Update<S>)
    requires queue.Valid() && update !in queue.ring
    modifies queue, update, queue.pending
    ensures queue.Valid()
    ensures queue.ring == old(queue.ring) + [update]
    ensures queue.pending == update
    ensures old(queue.pending) == null ==> update.next == update
    ensures queue.pending.next == queue.ring[0]
    ensures queue.dispatch == old(queue.dispatch)
    ensures forall u :: u in queue.ring ==> u.action == old(u.action) && u.lane == old(u.lane)
  {
    ghost var r := queue.ring;
    ghost var n := |r|;
    var pending := queue.pending;
    if pending == null {
      update.next := update;
    } else {
      update.next := pending.next;
      pending.next := update;
    }
    queue.pending := update;
    queue.ring := r + [update];
    ghost var r' := queue.ring;
    assert r'[n] == update;
    forall i, j | 0 <= i < n - 1 && j == i + 1
      ensures r'[i].next == r'[j]
    {
      assert r[i] != pending && r[i] != update;
    }
    if n > 0 {
      assert r'[n - 1] == pending && pending.next == update;
      assert update.next == r[0];
    }
    assert IsRing(queue.pending, r');
  }

  // ---------------------------------------------------------------------------
  // The specification of `processUpdateQueue`, on the records of the ring.

  /** What `processUpdateQueue` reads of an update. */
  datatype Record<!S> = Record(action: Action<S>, lane: Option<Lane>)

  function Records<S>(ring: seq<Update<S>>): (rs: seq<Record<S>>)
    reads ring
    ensures |rs| == |ring|
    ensures forall i :: 0 <= i < |ring| ==> rs[i] == Record(ring[i].action, ring[i].lane)
  {
    if ring == [] then [] else [Record(ring[0].action, ring[0].lane)] + Records(ring[1..])
  }

  /**
   * `isSubsetOfLanes(renderLane, update.lane)` with JavaScript's coercions:
   * an `undefined` render lane is 0 inside `&`, and an `undefined` update lane
   * is never `===` to the number the `&` produces, so it is never included.
   */
  predicate Included(renderLane: Option<Lane>, lane: Option<Lane>) {
    lane.Some? && IsSubsetOfLanes(renderLane.GetOr(NoLanes), lane.value)
  }

  /**
   * The state after an included update, as written: a value replaces the
   * state and a function is applied to the input `baseState`; the running
   * state `state` is not used.
   */
  function StepAsWritten<S>(baseState: S, state: S, action: Action<S>): S {
    match action
    case Replace(v) => v
    case Apply(f) => f(baseState)
  }

  /** `newState` after the loop has visited `us`, oldest first. */
  function NewState<S>(baseState: S, us: seq<Record<S>>, renderLane: Option<Lane>): S
    decreases |us|
  {
    if us == [] then baseState
    else
      var state := NewState(baseState, us[..|us| - 1], renderLane);
      var u := us[|us| - 1];
      if Included(renderLane, u.lane) then StepAsWritten(baseState, state, u.action) else state
  }

  /** The index of the first skipped update, or `|us|` when none is skipped. */
  function FirstSkip<S>(us: seq<Record<S>>, renderLane: Option<Lane>): (k: nat)
    ensures k <= |us|
    ensures forall j :: 0 <= j < k ==> Included(renderLane, us[j].lane)
    ensures k < |us| ==> !Included(renderLane, us[k].lane)
  {
    if us == [] then 0
    else if !Included(renderLane, us[0].lane) then 0
    else 1 + FirstSkip(us[1..], renderLane)
  }

  /**
   * The records of the new base ring: from the first skipped update on,
   * skipped updates keep their lane and included ones get NoLane, in source
   * order; empty when nothing is skipped.
   */
  function BaseRecords<S>(us: seq<Record<S>>, renderLane: Option<Lane>): (rs: seq<Record<S>>)
    ensures |rs| == |us| - FirstSkip(us, renderLane)
  {
    var k := FirstSkip(us, renderLane);
    seq(|us| - k, j requires 0 <= j < |us| - k => BaseRecord(us[k + j], renderLane))
  }

  /** The clone of an update in the base ring: an included update's lane becomes NoLane. */
  function BaseRecord<S>(u: Record<S>, renderLane: Option<Lane>): Record<S> {
    if Included(renderLane, u.lane) then Record(u.action, Some(NoLane)) else u
  }

  /** The loop's variables after visiting a prefix of the ring. */
  datatype Walked<!S> = Walked(newState: S, newBaseState: S, skipped: bool, baseRecords: seq<Record<S>>)

  /** The body of the do-while, applied to the updates `us` in order. */
  function Walk<S>(baseState: S, us: seq<Record<S>>, renderLane: Option<Lane>): Walked<S>
    decreases |us|
  {
    if us == [] then Walked(baseState, baseState, false, [])
    else
      var w := Walk(baseState, us[..|us| - 1], renderLane);
      var u := us[|us| - 1];
      if !Included(renderLane, u.lane) then
        Walked(w.newState, if w.skipped then w.newBaseState else w.newState, true, w.baseRecords + [u])
      else
        Walked(StepAsWritten(baseState, w.newState, u.action), w.newBaseState, w.skipped,
               if w.skipped then w.baseRecords + [Record(u.action, Some(NoLane))] else w.baseRecords)
  }

  /** Dropping the last record leaves the first skip in place, or moves it to the end. */
  lemma FirstSkipOfPrefix<S>(us: seq<Record<S>>, renderLane: Option<Lane>)
    requires us != []
    ensures var p := us[..|us| - 1];
      if FirstSkip(p, renderLane) < |p| then FirstSkip(us, renderLane) == FirstSkip(p, renderLane)
      else if Included(renderLane, us[|us| - 1].lane) then FirstSkip(us, renderLane) == |us|
      else FirstSkip(us, renderLane) == |p|
  {
    var p := us[..|us| - 1];
    assert forall j :: 0 <= j < |p| ==> p[j] == us[j];
  }

  /** The walk's state is `NewState`. */
  lemma {:induction false} WalkState<S>(baseState: S, us: seq<Record<S>>, renderLane: Option<Lane>)
    ensures Walk(baseState, us, renderLane).newState == NewState(baseState, us, renderLane)
    decreases |us|
  {
    if us != [] {
      WalkState(baseState, us[..|us| - 1], renderLane);
    }
  }

  /**
   * The walk records a skip iff some update is skipped, and its base state
   * is then the state before the first skip, and `baseState` otherwise.
   */
  lemma {:induction false} WalkBaseState<S>(baseState: S, us: seq<Record<S>>, renderLane: Option<Lane>)
    ensures Walk(baseState, us, renderLane).skipped <==> FirstSkip(us, renderLane) < |us|
    ensures Walk(baseState, us, renderLane).skipped ==>
      Walk(baseState, us, renderLane).newBaseState == NewState(baseState, us[..FirstSkip(us, renderLane)], renderLane)
    ensures !Walk(baseState, us, renderLane).skipped ==> Walk(baseState, us, renderLane).newBaseState == baseState
    decreases |us|
  {
    if us != [] {
      var p := us[..|us| - 1];
      WalkBaseState(baseState, p, renderLane);
      WalkState(baseState, p, renderLane);
      FirstSkipOfPrefix(us, renderLane);
      var k := FirstSkip(us, renderLane);
      if FirstSkip(p, renderLane) < |p| {
        assert us[..k] == p[..k];
      } else if k == |p| {
        assert us[..k] == p;
      }
    }
  }

  /** Once some update is skipped, each further record adds one base record. */
  lemma BaseRecordsOfPrefix<S>(us: seq<Record<S>>, renderLane: Option<Lane>)
    requires us != [] && FirstSkip(us, renderLane) < |us|
    ensures BaseRecords(us, renderLane) == BaseRecords(us[..|us| - 1], renderLane) + [BaseRecord(us[|us| - 1], renderLane)]
  {
    var p := us[..|us| - 1];
    FirstSkipOfPrefix(us, renderLane);
    var br := BaseRecords(us, renderLane);
    var bp := BaseRecords(p, renderLane);
    var last := BaseRecord(us[|us| - 1], renderLane);
    var k := FirstSkip(us, renderLane);
    assert k == FirstSkip(p, renderLane) && |br| == |bp| + 1;
    forall j | 0 <= j < |br| ensures br[j] == (bp + [last])[j] {
      if j < |bp| {
        assert p[k + j] == us[k + j];
        assert br[j] == bp[j];
      } else {
        assert j == |bp| && k + j == |us| - 1;
      }
    }
  }

  /** The walk's base records are `BaseRecords`. */
  lemma {:induction false} WalkBaseRecords<S>(baseState: S, us: seq<Record<S>>, renderLane: Option<Lane>)
    ensures Walk(baseState, us, renderLane).baseRecords == BaseRecords(us, renderLane)
    decreases |us|
  {
    if us != [] {
      var p := us[..|us| - 1];
      WalkBaseRecords(baseState, p, renderLane);
      WalkBaseState(baseState, p, renderLane);
      FirstSkipOfPrefix(us, renderLane);
      if FirstSkip(us, renderLane) < |us| {
        BaseRecordsOfPrefix(us, renderLane);
      }
    }
  }

  /** The clones, linked from first to last, are distinct, fresh and carry the records `expected`. */
  ghost predicate Chain<S>(clones: seq<Update<S>>, expected: seq<Record<S>>)
    reads clones
  {
    && |clones| == |expected|
    && (forall j, l :: 0 <= j < l < |clones| ==> clones[j] != clones[l])
    && (forall j, l :: 0 <= j < |clones| - 1 && l == j + 1 ==> clones[j].next == clones[l])
    && (forall j :: 0 <= j < |clones| ==> Record(clones[j].action, clones[j].lane) == expected[j])
  }

  /** Appends a fresh clone `createUpdate(action, lane)` after `last`, the end of the chain `clones`. */
  method AppendClone<S>(last: Update?<S>, action: Action<S>, lane: Option<Lane>,
                        ghost clones: seq<Update<S>>, ghost expected: seq<Record<S>>)
    returns (clone: Update<S>)
    requires Chain(clones, expected)
    requires last == null <==> clones == []
    requires clones != [] ==> last == clones[|clones| - 1]
    modifies last
    ensures fresh(clone) && clone.next == null
    ensures Chain(clones + [clone], expected + [Record(action, lane)])
  {
    clone := new Update(action, lane);
    if last != null {
      last.next := clone;
    }
    ghost var c := clones + [clone];
    assert forall j :: 0 <= j < |clones| ==> c[j] == clones[j];
  }

  /**
   * The do-while of `processUpdateQueue`: visits every update of the ring
   * once, oldest first, stopping on coming back to the first, and clones
   * the skipped updates and every update after the first skip into a fresh
   * chain from `baseFirst` to `baseLast` (the chain is not yet closed).
   */
  method WalkRing<S>(baseState: S, pendingUpdate: Update<S>, renderLane: Option<Lane>,
                     ghost ring: seq<Update<S>>, ghost us: seq<Record<S>>)
    returns (newState: S, newBaseState: S, baseFirst: Update?<S>, baseLast: Update?<S>,
             ghost clones: seq<Update<S>>, ghost expected: seq<Record<S>>)
    requires IsRing(pendingUpdate, ring)
    requires |us| == |ring| && forall j :: 0 <= j < |ring| ==> us[j] == Record(ring[j].action, ring[j].lane)
    ensures Walk(baseState, us, renderLane) == Walked(newState, newBaseState, baseFirst != null, expected)
    ensures baseFirst == null <==> clones == []
    ensures baseLast == null <==> clones == []
    ensures clones != [] ==> baseFirst == clones[0] && baseLast == clones[|clones| - 1]
    ensures forall j :: 0 <= j < |clones| ==> fresh(clones[j])
    ensures Chain(clones, expected)
  {
    ghost var n := |ring|;
    var first := pendingUpdate.next;
    var pending := first;
    baseFirst := null;
    baseLast := null;
    newState := baseState;
    newBaseState := baseState;
    ghost var i := 0;
    clones := [];
    expected := [];
    assert first == ring[0];
    var done := false;
    while !done
      invariant 0 <= i <= n && first == ring[0]
      invariant done <==> i == n
      invariant !done ==> pending == ring[i]
      invariant Walk(baseState, us[..i], renderLane) == Walked(newState, newBaseState, baseFirst != null, expected)
      invariant baseFirst == null <==> clones == []
      invariant baseLast == null <==> clones == []
      invariant clones != [] ==> baseFirst == clones[0] && baseLast == clones[|clones| - 1]
      invariant forall j :: 0 <= j < |clones| ==> fresh(clones[j])
      invariant Chain(clones, expected)
      decreases n - i
    {
      assert us[..i + 1][..i] == us[..i];
      assert us[..i + 1][i] == us[i] == Record(pending.action, pending.lane);
      var updateLane := pending.lane;
      if !Included(renderLane, updateLane) {
        var clone := AppendClone(baseLast, pending.action, pending.lane, clones, expected);
        if baseFirst == null {
          baseFirst := clone;
          newBaseState := newState;
        }
        baseLast := clone;
        clones := clones + [clone];
        expected := expected + [us[i]];
      } else {
        if baseLast != null {
          var clone := AppendClone(baseLast, pending.action, Some(NoLane), clones, expected);
          baseLast := clone;
          clones := clones + [clone];
          expected := expected + [Record(us[i].action, Some(NoLane))];
        }
        newState := StepAsWritten(baseState, newState, pending.action);
      }
      pending := pending.next;
      i := i + 1;
      if i < n {
        assert pending == ring[i] && ring[i] != ring[0];
      } else {
        assert pending == ring[0];
      }
      done := pending == first;
    }
    assert us[..i] == us;
  }

  /** Closes the chain into a ring: the last clone points back to the first. */
  method CloseChain<S>(first: Update?<S>, last: Update?<S>, ghost clones: seq<Update<S>>, ghost expected: seq<Record<S>>)
    requires Chain(clones, expected)
    requires first == null <==> clones == []
    requires last == null <==> clones == []
    requires clones != [] ==> first == clones[0] && last == clones[|clones| - 1]
    modifies last
    ensures IsRing(last, clones)
    ensures Records(clones) == expected
  {
    if last != null {
      last.next := first;
    }
    assert forall j :: 0 <= j < |clones| ==> Records(clones)[j] == expected[j];
  }

  /**
   * `processUpdateQueue(baseState, pendingUpdate, renderLane)`: the state is
   * `NewState` of the ring's records; the new base state is the state before
   * the first skipped update (the final state when none is skipped); the
   * fresh base ring holds `BaseRecords` of the ring's records.
   */
  method ProcessUpdateQueue<S>(baseState: S, pendingUpdate: Update?<S>, renderLane: Option<Lane>,
                               ghost ring: seq<Update<S>>)
    returns (memoizedState: S, newBaseState: S, baseQueue: Update?<S>, ghost baseRing: seq<Update<S>>)
    requires IsRing(pendingUpdate, ring)
    ensures memoizedState == NewState(baseState, old(Records(ring)), renderLane)
    ensures pendingUpdate == null ==> memoizedState == baseState && newBaseState == baseState && baseQueue == null
    ensures FirstSkip(old(Records(ring)), renderLane) == |ring| ==> newBaseState == memoizedState && baseQueue == null
    ensures FirstSkip(old(Records(ring)), renderLane) < |ring| ==>
      newBaseState == NewState(baseState, old(Records(ring))[..FirstSkip(old(Records(ring)), renderLane)], renderLane)
    ensures IsRing(baseQueue, baseRing)
    ensures Records(baseRing) == BaseRecords(old(Records(ring)), renderLane)
    ensures forall c :: c in baseRing ==> fresh(c)
  {
    memoizedState := baseState;
    newBaseState := baseState;
    baseQueue := null;
    baseRing := [];
    if pendingUpdate != null {
      ghost var us := Records(ring);
      var first, last;
      ghost var expected;
      memoizedState, newBaseState, first, last, baseRing, expected := WalkRing(baseState, pendingUpdate, renderLane, ring, us);
      WalkState(baseState, us, renderLane);
      WalkBaseState(baseState, us, renderLane);
      WalkBaseRecords(baseState, us, renderLane);
      if last == null {
        newBaseState := memoizedState;
      }
      CloseChain(first, last, baseRing, expected);
      baseQueue := last;
    }
  }

  // ---------------------------------------------------------------------------
  // Properties of the specification.

  /** As written, only the last included update counts: a later value wins, a later function is applied to `baseState`. */
  lemma {:induction false} LastIncludedWins<S>(baseState: S, us: seq<Record<S>>, renderLane: Option<Lane>, k: nat)
    requires k < |us| && Included(renderLane, us[k].lane)
    requires forall j :: k < j < |us| ==> !Included(renderLane, us[j].lane)
    ensures NewState(baseState, us, renderLane) == StepAsWritten(baseState, baseState, us[k].action)
    decreases |us|
  {
    if k < |us| - 1 {
      LastIncludedWins(baseState, us[..|us| - 1], renderLane, k);
    }
  }

  /** With nothing included, the state is `baseState`. */
  lemma {:induction false} NothingIncluded<S>(baseState: S, us: seq<Record<S>>, renderLane: Option<Lane>)
    requires forall j :: 0 <= j < |us| ==> !Included(renderLane, us[j].lane)
    ensures NewState(baseState, us, renderLane) == baseState
    decreases |us|
  {
    if us != [] {
      NothingIncluded(baseState, us[..|us| - 1], renderLane);
    }
  }

  /** The state React evidently intends: each included update acts on the running state. */
  function StepIntended<S>(state: S, action: Action<S>): S {
    match action
    case Replace(v) => v
    case Apply(f) => f(state)
  }

  function IntendedState<S>(baseState: S, us: seq<Record<S>>, renderLane: Option<Lane>): S
    decreases |us|
  {
    if us == [] then baseState
    else
      var state := IntendedState(baseState, us[..|us| - 1], renderLane);
      var u := us[|us| - 1];
      if Included(renderLane, u.lane) then StepIntended(state, u.action) else state
  }

  /** When every included update is a plain value, the code as written and the intended fold agree. */
  lemma {:induction false} ValueActionsAgree<S>(baseState: S, us: seq<Record<S>>, renderLane: Option<Lane>)
    requires forall j :: 0 <= j < |us| && Included(renderLane, us[j].lane) ==> us[j].action.Replace?
    ensures NewState(baseState, us, renderLane) == IntendedState(baseState, us, renderLane)
    decreases |us|
  {
    if us != [] {
      ValueActionsAgree(baseState, us[..|us| - 1], renderLane);
    }
  }

  /**
   * Two included `n => n + 1` updates on 0 give 1 as written, not 2:
   * the second function sees `baseState`, not the first one's result.
   */
  function Increment(n: int): int { n + 1 }

  lemma FunctionActionsSeeBaseState()
    ensures var inc := Record(Apply(Increment), Some(NoLane));
      NewState(0, [inc, inc], None) == 1 && IntendedState(0, [inc, inc], None) == 2
  {
    var inc := Record(Apply(Increment), Some(NoLane));
    assert [inc, inc][..1] == [inc];
    assert [inc][..0] == [];
    assert IntendedState(0, [inc], None) == 1;
    assert [inc][..0] == [];
  }

  /**
   * Without a render lane (`renderLane` undefined) an update is included iff
   * its lane is 0, and an update without a lane is never included.
   */
  lemma MissingRenderLane(lane: Option<Lane>)
    ensures Included(None, lane) <==> lane == Some(NoLane)
    ensures !Included(None, None) && !Included(Some(SyncLane), None)
  {
    if lane.Some? {
      SubsetBits(NoLanes, lane.value);
      if Included(None, lane) {
        forall i: bv32 | i < 32 ensures !HasBit(lane.value, i) {
        }
        BitsZero(lane.value);
      }
    }
  }
}
