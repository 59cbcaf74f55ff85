/** Facts that are costly to look into are stated folded up, as `forall key :: Unfold(key) ==> ...`:
    the verifier looks inside only where a proof mentions `Unfold`. */
module Folding {

  predicate Unfold(key: int)
  {
    true
  }

  /** Where one folded fact contains another, keys tell them apart. */
  const REPLICA: int := 0
  const PEER: int := 1
  const REDUCED: int := 2
  const SWEEP: int := 3
}
