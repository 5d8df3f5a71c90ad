/** Fiber tags (packages/react-reconciler/src/workTags.ts). */
module WorkTags {

  datatype WorkTag =
    | FunctionComponent
    | HostRoot
    | HostComponent
    | HostText
    | Fragment
    | ContextProvider

  /** The numeric value the source gives each tag. */
  function TagNumber(tag: WorkTag): (n: nat)
    ensures n in {0, 3, 5, 6, 7, 8}
  {
    match tag
    case FunctionComponent => 0
    case HostRoot => 3
    case HostComponent => 5
    case HostText => 6
    case Fragment => 7
    case ContextProvider => 8
  }

  /** The numbering is injective, so comparing tags by number is comparing tags. */
  lemma TagNumbersDistinct(a: WorkTag, b: WorkTag)
    ensures TagNumber(a) == TagNumber(b) <==> a == b
  {
  }
}
