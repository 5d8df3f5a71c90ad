/**
 * Effect flags (packages/react-reconciler/src/fiberFlags.ts). Like lanes,
 * flags are bits of a 32-bit integer, and a fiber's `flags` and
 * `subtreeFlags` are unions of them.
 */
module FiberFlags {
  import opened Lanes

  type Flags = bv32

  const NoFlags: Flags := 0x00
  const Placement: Flags := 0x01
  const Update: Flags := 0x02
  const ChildDeletion: Flags := 0x04
  const PassiveEffect: Flags := 0x08

  const MutationMask: Flags := Placement | Update | ChildDeletion
  const PassiveMask: Flags := PassiveEffect | ChildDeletion

  /** Whether two flag sets share a bit (`(a & b) !== NoFlags`). */
  predicate Intersects(a: Flags, b: Flags) {
    a & b != NoFlags
  }

  /** `flags |= f`: adds the bits of `f` and keeps every other bit, the union `MergeLanes` also takes. */
  function AddFlags(flags: Flags, f: Flags): (r: Flags)
    ensures forall i: bv32 :: i < 32 ==> (HasBit(r, i) <==> HasBit(flags, i) || HasBit(f, i))
  {
    MergeLanes(flags, f)
  }

  /** `flags &= ~f`: clears the bits of `f` and keeps every other bit, the difference `RemoveLanes` also takes. */
  function ClearFlags(flags: Flags, f: Flags): (r: Flags)
    ensures forall i: bv32 :: i < 32 ==> (HasBit(r, i) <==> HasBit(flags, i) && !HasBit(f, i))
  {
    RemoveLanes(flags, f)
  }

  /** NoFlags is 0 and the four effect flags are distinct single bits. */
  lemma FlagConstants()
    ensures NoFlags == 0
    ensures IsSingleBit(Placement) && IsSingleBit(Update)
    ensures IsSingleBit(ChildDeletion) && IsSingleBit(PassiveEffect)
    ensures Placement & Update == 0 && Placement & ChildDeletion == 0 && Placement & PassiveEffect == 0
    ensures Update & ChildDeletion == 0 && Update & PassiveEffect == 0
    ensures ChildDeletion & PassiveEffect == 0
  {
  }

  /**
   * The masks: MutationMask is exactly Placement, Update and ChildDeletion,
   * PassiveMask exactly PassiveEffect and ChildDeletion; PassiveEffect is not
   * a mutation and ChildDeletion is in both masks.
   */
  lemma MaskContents(f: Flags)
    ensures Intersects(f, MutationMask) <==> Intersects(f, Placement) || Intersects(f, Update) || Intersects(f, ChildDeletion)
    ensures Intersects(f, PassiveMask) <==> Intersects(f, PassiveEffect) || Intersects(f, ChildDeletion)
    ensures !Intersects(PassiveEffect, MutationMask)
    ensures Intersects(ChildDeletion, MutationMask) && Intersects(ChildDeletion, PassiveMask)
    ensures MutationMask & PassiveMask == ChildDeletion
  {
  }

  /** `f & ~Placement` has no Placement bit and keeps every other bit of `f`. */
  lemma ClearPlacement(f: Flags)
    ensures ClearFlags(f, Placement) == f & 0xFFFF_FFFE
    ensures !HasBit(ClearFlags(f, Placement), 0)
    ensures forall i: bv32 :: 1 <= i < 32 ==> (HasBit(ClearFlags(f, Placement), i) <==> HasBit(f, i))
  {
    var r := ClearFlags(f, Placement);
    forall i: bv32 | 1 <= i < 32 ensures HasBit(r, i) <==> HasBit(f, i) {
      assert !HasBit(Placement, i);
    }
  }
}
