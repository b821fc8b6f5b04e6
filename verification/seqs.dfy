/** Small facts about sequences that the proofs use in several places.
    Each is stated once here so that a proof can cite it without the
    solver having to rediscover sequence extensionality in a large
    context. */
module Seqs {

  lemma AppendAssoc<T>(a: seq<T>, b: seq<T>, c: seq<T>)
    ensures (a + b) + c == a + (b + c)
  {
  }

  /** A non-empty sequence is its front followed by its last element. */
  lemma Snoc<T>(s: seq<T>)
    requires s != []
    ensures s == s[..|s| - 1] + [s[|s| - 1]]
  {
  }

  lemma SplitAt<T>(xs: seq<T>, a: nat, b: nat)
    requires a <= b <= |xs|
    ensures xs[a..] == xs[a..b] + xs[b..]
  {
  }

  lemma PrefixCons<T>(xs: seq<T>, n: nat)
    requires 0 < |xs| && n < |xs|
    ensures xs[..n + 1] == [xs[0]] + xs[1..][..n]
  {
  }

  /** Dropping the head of a cons gives back its tail. */
  lemma ConsTail<T>(a: T, s: seq<T>)
    ensures ([a] + s)[1..] == s
  {
  }

  /** Every element after the head sits one place earlier in the tail. */
  lemma TailIndex<T>(s: seq<T>)
    requires s != []
    ensures forall k :: 1 <= k < |s| ==> s[k] == s[1..][k - 1]
  {
  }
}
