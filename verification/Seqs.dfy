/** Facts about sequences that the verifier does not see by itself. */
module Seqs {
  lemma Associative<T>(a: seq<T>, b: seq<T>, c: seq<T>)
    ensures (a + b) + c == a + (b + c)
  {
  }
}
