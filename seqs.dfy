/** Small facts about sequences that the loops of several modules rely on. */
module Seqs {

  /** A prefix grown by the element at its end. */
  lemma PrefixSnoc<T>(xs: seq<T>, i: nat, x: T)
    requires i < |xs| && xs[i] == x
    ensures xs[..i] + [x] == xs[..i + 1]
  {
  }

  /** A whole sequence is its own prefix. */
  lemma WholePrefix<T>(xs: seq<T>)
    ensures xs[..|xs|] == xs
  {
  }

  lemma AppendAssoc<T>(a: seq<T>, b: seq<T>, c: seq<T>)
    ensures a + (b + c) == (a + b) + c
  {
  }
}
