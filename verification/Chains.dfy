/** Linked lists on values: the addresses of the nodes in order. */
module Chains {
  type Ptr = nat

  /** Position i of the list; the null pointer behind its end. */
  function NodeAt(chain: seq<Ptr>, i: nat): Ptr {
    if i < |chain| then chain[i] else 0
  }
}
