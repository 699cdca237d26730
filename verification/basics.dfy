/** Shared small types. */
module Basics {
  datatype Option<T> = None | Some(value: T)

  /** An unsigned byte; `char` is unsigned on the target. */
  type Octet = n: nat | n < 256

  /** Concatenation is associative, for the cases the verifier does not look for. */
  lemma Regroup<T>(a: seq<T>, b: seq<T>, c: seq<T>)
    ensures a + (b + c) == (a + b) + c
  {
  }
}
