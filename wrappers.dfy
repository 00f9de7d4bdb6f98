/** Small shared pieces: an option type and the associativity of sequence concatenation. */
module Wrappers {
  datatype Option<T> = None | Some(value: T)

  /** Regrouping a concatenation; stated once so that callers need not rediscover it. */
  lemma Assoc3<T>(a: seq<T>, b: seq<T>, c: seq<T>)
    ensures a + b + c == a + (b + c)
  {
  }

  lemma Assoc4<T>(a: seq<T>, b: seq<T>, c: seq<T>, d: seq<T>)
    ensures a + b + c + d == a + (b + c + d)
  {
  }
}
