/** Facts about splitting a sequence at its first element, proved once here so
    that larger proofs need not redo the sequence extensionality. */
module Seqs {

  lemma HeadTail<T>(xs: seq<T>)
    requires |xs| > 0
    ensures [xs[0]] + xs[1..] == xs
  {
  }

  lemma AppendHeadTail<T>(a: seq<T>, xs: seq<T>)
    requires |xs| > 0
    ensures a + [xs[0]] + xs[1..] == a + xs
  {
    HeadTail(xs);
    assert a + [xs[0]] + xs[1..] == a + ([xs[0]] + xs[1..]);
  }

  lemma ConsParts<T>(x: T, xs: seq<T>)
    ensures ([x] + xs)[0] == x && ([x] + xs)[1..] == xs
  {
  }
}
