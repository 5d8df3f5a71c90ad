/**
 * Priority lanes (packages/react-reconciler/src/fiberLanes.ts).
 * A lane is one bit of a small integer and a set of lanes is the bitwise union
 * of its lanes. JavaScript's bitwise operators work on 32-bit integers, so
 * lanes are `bv32`; the priority constants of the external scheduler package
 * are the enumeration `SchedulerPriority`.
 */
module Lanes {

  type Lane = bv32
  type Lanes = bv32

  const NoLane: Lane := 0x00
  const SyncLane: Lane := 0x01
  const NoLanes: Lanes := 0x00
  const InputContinuousLane: Lane := 0x02
  const DefaultLane: Lane := 0x04
  const TransitionLane: Lane := 0x08
  const IdleLane: Lane := 0x10

  /** The one-bit set holding bit `i`. */
  function Bit(i: bv32): bv32
    requires i < 32
  {
    1 << i
  }

  /** Whether bit `i` is set in `x`. */
  predicate HasBit(x: bv32, i: bv32)
    requires i < 32
  {
    (x >> i) & 1 == 1
  }

  lemma AndBit(a: bv32, b: bv32, i: bv32)
    requires i < 32
    ensures HasBit(a & b, i) <==> HasBit(a, i) && HasBit(b, i)
  {
  }

  lemma OrBit(a: bv32, b: bv32, i: bv32)
    requires i < 32
    ensures HasBit(a | b, i) <==> HasBit(a, i) || HasBit(b, i)
  {
  }

  lemma AndNotBit(a: bv32, b: bv32, i: bv32)
    requires i < 32
    ensures HasBit(a & !b, i) <==> HasBit(a, i) && !HasBit(b, i)
  {
  }

  /** The bits of a union, bit by bit. */
  lemma OrBits(a: bv32, b: bv32)
    ensures forall i: bv32 :: i < 32 ==> (HasBit(a | b, i) <==> HasBit(a, i) || HasBit(b, i))
  {
    forall i: bv32 | i < 32 ensures HasBit(a | b, i) <==> HasBit(a, i) || HasBit(b, i) {
      OrBit(a, b, i);
    }
  }

  /** The bits of a difference, bit by bit. */
  lemma AndNotBits(a: bv32, b: bv32)
    ensures forall i: bv32 :: i < 32 ==> (HasBit(a & !b, i) <==> HasBit(a, i) && !HasBit(b, i))
  {
    forall i: bv32 | i < 32 ensures HasBit(a & !b, i) <==> HasBit(a, i) && !HasBit(b, i) {
      AndNotBit(a, b, i);
    }
  }

  /** `x` has exactly one bit set. */
  predicate IsSingleBit(x: bv32) {
    x != 0 && x & (x - 1) == 0
  }

  /** The priority levels handed out by the external scheduler package. */
  datatype SchedulerPriority =
    | ImmediatePriority
    | UserBlockingPriority
    | NormalPriority
    | LowPriority
    | IdlePriority

  /** If no bit of `x` is set, `x` is zero. */
  lemma BitsZero(x: bv32)
    requires forall i: bv32 :: i < 32 ==> !HasBit(x, i)
    ensures x == 0
  {
    assert !HasBit(x, 0) && !HasBit(x, 1) && !HasBit(x, 2) && !HasBit(x, 3);
    assert !HasBit(x, 4) && !HasBit(x, 5) && !HasBit(x, 6) && !HasBit(x, 7);
    assert !HasBit(x, 8) && !HasBit(x, 9) && !HasBit(x, 10) && !HasBit(x, 11);
    assert !HasBit(x, 12) && !HasBit(x, 13) && !HasBit(x, 14) && !HasBit(x, 15);
    assert !HasBit(x, 16) && !HasBit(x, 17) && !HasBit(x, 18) && !HasBit(x, 19);
    assert !HasBit(x, 20) && !HasBit(x, 21) && !HasBit(x, 22) && !HasBit(x, 23);
    assert !HasBit(x, 24) && !HasBit(x, 25) && !HasBit(x, 26) && !HasBit(x, 27);
    assert !HasBit(x, 28) && !HasBit(x, 29) && !HasBit(x, 30) && !HasBit(x, 31);
  }

  /** Two sets with the same bits are equal. */
  lemma BitsExt(x: bv32, y: bv32)
    requires forall i: bv32 :: i < 32 ==> (HasBit(x, i) <==> HasBit(y, i))
    ensures x == y
  {
    var z := x ^ y;
    forall i: bv32 | i < 32 ensures !HasBit(z, i) {
      assert HasBit(x, i) <==> HasBit(y, i);
    }
    BitsZero(z);
  }

  /** `mergeLanes`: the union of two lane sets. */
  function MergeLanes(laneA: Lanes, laneB: Lanes): (r: Lanes)
    ensures forall i: bv32 :: i < 32 ==> (HasBit(r, i) <==> HasBit(laneA, i) || HasBit(laneB, i))
  {
    OrBits(laneA, laneB);
    laneA | laneB
  }

  /** `getHighestPriorityLane`: the lowest set bit, `lanes & -lanes`. */
  function GetHighestPriorityLane(lanes: Lanes): (r: Lane)
    ensures r == NoLane <==> lanes == NoLanes
    ensures lanes != NoLanes ==> IsSingleBit(r) && r & lanes == r && (r - 1) & lanes == 0
  {
    lanes & -lanes
  }

  /** `isSubsetOfLanes(set, subSet)`: every bit of `subSet` is in `laneSet`. */
  predicate IsSubsetOfLanes(laneSet: Lanes, subSet: Lane) {
    (subSet & laneSet) == subSet
  }

  /** `isSubsetOfLanes` holds exactly when every bit of `subSet` is a bit of `laneSet`. */
  lemma SubsetBits(laneSet: Lanes, subSet: Lane)
    ensures IsSubsetOfLanes(laneSet, subSet) <==> forall i: bv32 :: i < 32 ==> HasBit(subSet, i) ==> HasBit(laneSet, i)
  {
    if forall i: bv32 :: i < 32 ==> HasBit(subSet, i) ==> HasBit(laneSet, i) {
      forall i: bv32 | i < 32 ensures HasBit(subSet & laneSet, i) <==> HasBit(subSet, i) {
        AndBit(subSet, laneSet, i);
      }
      BitsExt(subSet & laneSet, subSet);
    }
    if (subSet & laneSet) == subSet {
      forall i: bv32 | i < 32 ensures HasBit(subSet, i) ==> HasBit(laneSet, i) {
        AndBit(subSet, laneSet, i);
      }
    }
  }

  /** `pendingLanes &= ~lane`, the update `markRootFinished` makes. */
  function RemoveLanes(lanes: Lanes, lane: Lane): (r: Lanes)
    ensures forall i: bv32 :: i < 32 ==> (HasBit(r, i) <==> HasBit(lanes, i) && !HasBit(lane, i))
  {
    AndNotBits(lanes, lane);
    lanes & !lane
  }

  /** `lanesToSchedulerPriority`: the scheduler priority of the highest-priority lane. */
  function LanesToSchedulerPriority(lanes: Lanes): (p: SchedulerPriority)
    ensures HasBit(lanes, 0) ==> p == ImmediatePriority
    ensures !HasBit(lanes, 0) && HasBit(lanes, 1) ==> p == UserBlockingPriority
    ensures !HasBit(lanes, 0) && !HasBit(lanes, 1) && HasBit(lanes, 2) ==> p == NormalPriority
    ensures !HasBit(lanes, 0) && !HasBit(lanes, 1) && !HasBit(lanes, 2) ==> p == IdlePriority
  {
    var lane := GetHighestPriorityLane(lanes);
    if lane == SyncLane then ImmediatePriority
    else if lane == InputContinuousLane then UserBlockingPriority
    else if lane == DefaultLane then NormalPriority
    else IdlePriority
  }

  /** `schedulerPriorityToLane`. */
  function SchedulerPriorityToLane(priority: SchedulerPriority): (lane: Lane)
    ensures priority == ImmediatePriority <==> lane == SyncLane
    ensures priority == UserBlockingPriority <==> lane == InputContinuousLane
    ensures priority == NormalPriority <==> lane == DefaultLane
    ensures priority in {LowPriority, IdlePriority} <==> lane == NoLane
  {
    match priority
    case ImmediatePriority => SyncLane
    case UserBlockingPriority => InputContinuousLane
    case NormalPriority => DefaultLane
    case _ => NoLane
  }

  /**
   * `requestUpdateLane`. Whether a transition is active
   * (`ReactCurrentBatchConfig.transition !== null`) and the scheduler's current
   * priority (`unstable_getCurrentPriorityLevel()`) are parameters.
   */
  function RequestUpdateLane(isTransition: bool, currentSchedulerPriority: SchedulerPriority): (lane: Lane)
    ensures isTransition ==> lane == TransitionLane
    ensures !isTransition ==> lane in {NoLane, SyncLane, InputContinuousLane, DefaultLane}
    ensures !isTransition && currentSchedulerPriority == ImmediatePriority ==> lane == SyncLane
    ensures !isTransition && currentSchedulerPriority == UserBlockingPriority ==> lane == InputContinuousLane
    ensures !isTransition && currentSchedulerPriority == NormalPriority ==> lane == DefaultLane
    ensures !isTransition && currentSchedulerPriority in {LowPriority, IdlePriority} ==> lane == NoLane
  {
    if isTransition then TransitionLane
    else SchedulerPriorityToLane(currentSchedulerPriority)
  }

  // ---------------------------------------------------------------------------
  // Properties of the lane constants and the lane algebra.

  /** The lanes are five distinct single bits; SyncLane is the lowest, so the highest priority. */
  lemma LaneConstants()
    ensures NoLane == 0 && NoLanes == 0
    ensures IsSingleBit(SyncLane) && IsSingleBit(InputContinuousLane) && IsSingleBit(DefaultLane)
    ensures IsSingleBit(TransitionLane) && IsSingleBit(IdleLane)
    ensures SyncLane & InputContinuousLane == 0 && SyncLane & DefaultLane == 0
    ensures SyncLane & TransitionLane == 0 && SyncLane & IdleLane == 0
    ensures InputContinuousLane & DefaultLane == 0 && InputContinuousLane & TransitionLane == 0
    ensures InputContinuousLane & IdleLane == 0 && DefaultLane & TransitionLane == 0
    ensures DefaultLane & IdleLane == 0 && TransitionLane & IdleLane == 0
    ensures SyncLane < InputContinuousLane < DefaultLane < TransitionLane < IdleLane
    ensures SyncLane == Bit(0)
  {
  }

  /** Union is commutative, associative and idempotent, with NoLanes as identity. */
  lemma MergeLanesAlgebra(a: Lanes, b: Lanes, c: Lanes)
    ensures MergeLanes(a, b) == MergeLanes(b, a)
    ensures MergeLanes(MergeLanes(a, b), c) == MergeLanes(a, MergeLanes(b, c))
    ensures MergeLanes(a, a) == a
    ensures MergeLanes(a, NoLanes) == a && MergeLanes(NoLanes, a) == a
  {
  }

  /** NoLane is included in every set, and every set includes itself. */
  lemma SubsetBasics(a: Lanes, b: Lanes)
    ensures IsSubsetOfLanes(a, NoLane)
    ensures IsSubsetOfLanes(a, a)
    ensures IsSubsetOfLanes(MergeLanes(a, b), b)
  {
  }

  /** `lanesToSchedulerPriority` looks at nothing but the highest-priority lane. */
  lemma SchedulerPriorityOfHighestLane(lanes: Lanes)
    ensures LanesToSchedulerPriority(lanes) == LanesToSchedulerPriority(GetHighestPriorityLane(lanes))
  {
  }

  /** Sync, InputContinuous and Default lanes make the round trip through both mappings. */
  lemma SchedulerRoundTrip(lane: Lane, priority: SchedulerPriority)
    ensures lane in {SyncLane, InputContinuousLane, DefaultLane} ==>
      SchedulerPriorityToLane(LanesToSchedulerPriority(lane)) == lane
    ensures priority in {ImmediatePriority, UserBlockingPriority, NormalPriority} ==>
      LanesToSchedulerPriority(SchedulerPriorityToLane(priority)) == priority
    ensures LanesToSchedulerPriority(TransitionLane) == IdlePriority
    ensures LanesToSchedulerPriority(IdleLane) == IdlePriority
    ensures LanesToSchedulerPriority(NoLanes) == IdlePriority
  {
  }
}
