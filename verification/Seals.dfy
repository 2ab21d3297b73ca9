/**
 Two devices that keep the proofs quick; neither says anything about the system.

 A seal is an invariant wrapped as a value. `x.Seal() == Intact` is equivalent to the invariant
 of `x`, but it is the equality of two values, so a method that merely passes the invariant
 along does not take it apart. A pair of lemmas opens and closes each seal: opening asserts
 `Unsealed(x, 0)`, the mark that the quantifier inside the seal waits for.

 A mark is a predicate that always holds. A quantifier triggered by a mark is instantiated only
 where a proof asserts the mark, instead of wherever a term of the right shape turns up.
 */
module Seals {
  datatype Health = Intact | Broken

  /** The mark that opens the seal of `x`. */
  ghost predicate Unsealed<T>(x: T, k: int) {
    true
  }

  /** Marks a position whose header a proof looks at. */
  ghost predicate Slot(i: int) {
    true
  }

  /** Marks a position whose residency in a cache a proof looks at. */
  ghost predicate Pin(i: int) {
    true
  }

  /** Marks a chain whose next nBits a proof computes. */
  ghost predicate Computes<T>(chain: T) {
    true
  }
}
