/// Facts about sequences shared by the scan and the genre count.
module Sequences {

  /** Extending a prefix of `xs` by one element extends anything it is
      appended to by that element. */
  lemma ExtendPrefix<T>(done: seq<T>, xs: seq<T>, r: nat)
    requires r < |xs|
    ensures done + xs[..r + 1] == (done + xs[..r]) + [xs[r]]
  {
    assert xs[..r + 1] == xs[..r] + [xs[r]];
  }
}
