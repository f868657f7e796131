/** Small facts about sequence slices, kept apart so that each is proved in a small context. */
module Seqs {

  /** One more element taken from `xs` is its next element appended. */
  lemma TakeSnoc<T>(xs: seq<T>, i: nat)
    requires i < |xs|
    ensures xs[..i + 1] == xs[..i] + [xs[i]]
  {
  }

  /** The same, behind a fixed prefix. */
  lemma PrefixStep<T>(before: seq<T>, xs: seq<T>, j: nat)
    requires j < |xs|
    ensures before + xs[..j + 1] == (before + xs[..j]) + [xs[j]]
  {
    TakeSnoc(xs, j);
  }

  /** Taking everything is the whole sequence. */
  lemma TakeAll<T>(xs: seq<T>)
    ensures xs[..|xs|] == xs
  {
  }

  /** What follows a prefix of a concatenation is the rest of it. */
  lemma DropPrefix<T>(p: seq<T>, a: seq<T>, b: seq<T>)
    ensures (p + a + b)[|p|..] == a + b
  {
    assert p + a + b == p + (a + b);
  }
}
