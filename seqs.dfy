/** Relations between sequences used by several parts of the model. */
module Seqs {
  /** `xs` is obtained from `ys` by deleting elements. */
  predicate IsSubsequence<T(==)>(xs: seq<T>, ys: seq<T>)
    decreases |ys|
  {
    |xs| == 0
    || (|ys| > 0 && ((xs[0] == ys[0] && IsSubsequence(xs[1..], ys[1..])) || IsSubsequence(xs, ys[1..])))
  }

  /** Every sequence is a subsequence of itself. */
  lemma {:induction false} SubsequenceRefl<T>(xs: seq<T>)
    ensures IsSubsequence(xs, xs)
    decreases |xs|
  {
    if |xs| > 0 {
      SubsequenceRefl(xs[1..]);
    }
  }

  /** `set(xs) == set(ys)`. */
  predicate SameElements<T(==)>(xs: seq<T>, ys: seq<T>) {
    (forall x :: x in xs ==> x in ys) && (forall y :: y in ys ==> y in xs)
  }

  /** A loop over a set moves one element from the remaining ones to the done ones, keeping them a partition. */
  lemma MoveOne<T>(all: set<T>, done: set<T>, remaining: set<T>, x: T)
    requires done + remaining == all && done !! remaining && x in remaining
    ensures (done + {x}) + (remaining - {x}) == all && (done + {x}) !! (remaining - {x})
    ensures |remaining - {x}| < |remaining| && x !in done
  {
  }

  /** With nothing remaining, every element is done. */
  lemma MovedAll<T>(all: set<T>, done: set<T>, remaining: set<T>)
    requires done + remaining == all && remaining == {}
    ensures done == all
  {
  }
}
