/** Facts about sequences shared by the modules of this model. */
module Seqs {
  /** Concatenation is associative; stated once so that proofs can name the
      regrouping they need instead of rebuilding it element by element. */
  lemma AppendAssoc<T>(a: seq<T>, b: seq<T>, c: seq<T>)
    ensures (a + b) + c == a + (b + c)
  {
  }
}
