/** Products, kept away from proofs about anything else. */
module Arithmetic {
  lemma MulMonotone(a: int, b: int, f: int)
    requires a <= b && 0 <= f
    ensures a * f <= b * f
  {
  }
}
