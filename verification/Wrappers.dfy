/** Small shared pieces: an optional value, and the tail of a bounded list. */
module Wrappers {

  datatype Option<T> = None | Some(value: T)

  /** The last at most `n` elements. */
  function LastN<T>(xs: seq<T>, n: nat): seq<T> {
    if |xs| <= n then xs else xs[|xs| - n..]
  }

  /** Keeping the last `n` step by step is keeping the last `n` of everything. */
  lemma LastNStep<T>(xs: seq<T>, x: T, n: nat)
    ensures LastN(LastN(xs, n) + [x], n) == LastN(xs + [x], n)
  {
  }
}
