/** The optional-value wrapper used throughout the model, and the one fact
    about sequence concatenation the loop proofs cite. */
module Wrappers {
  datatype Option<T> = None | Some(value: T)

  lemma {:induction false} Associative<T>(a: seq<T>, b: seq<T>, c: seq<T>)
    ensures a + (b + c) == (a + b) + c
  {
  }
}
