/** Facts about sequences that the solver does not find on its own. */
module Seqs {
  /** Concatenation is associative. */
  lemma AppendAssociative<T>(x: seq<T>, y: seq<T>, z: seq<T>)
    ensures (x + y) + z == x + (y + z)
  {
  }
}
