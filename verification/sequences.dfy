/** Rewriting steps on sequences shared by the proofs of several modules. */
module Sequences {

  lemma {:induction false} ConcatAssoc<T>(a: seq<T>, b: seq<T>, c: seq<T>)
    ensures (a + b) + c == a + (b + c)
  {
  }
}
