/** Sequence helpers shared by the agent and the state abstraction. */
module Sequences {

  /** Position of the first occurrence of `x` in `xs` (Java's List.indexOf). */
  function FirstIndex<T(==)>(xs: seq<T>, x: T): (i: nat)
    requires x in xs
    ensures i < |xs| && xs[i] == x
    ensures forall k :: 0 <= k < i ==> xs[k] != x
    decreases |xs|
  {
    if xs[0] == x then 0 else 1 + FirstIndex(xs[1..], x)
  }
}
