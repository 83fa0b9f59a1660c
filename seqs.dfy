/** Concatenating per-element results, the shape of every loop in the server
    that pushes zero or more values for each element of a list. */
module Seqs {

  lemma AppendAssociative<T>(x: seq<T>, y: seq<T>, z: seq<T>)
    ensures x + (y + z) == (x + y) + z
  {
  }

  /** The results of `f` for the elements of `xs`, concatenated in order. */
  function Gather<A, B>(f: A -> seq<B>, xs: seq<A>): seq<B>
    decreases |xs|
  {
    if xs == [] then [] else Gather(f, xs[..|xs| - 1]) + f(xs[|xs| - 1])
  }

  /** Gathering over a list extended by one element adds that element's results. */
  lemma GatherStep<A, B>(f: A -> seq<B>, xs: seq<A>, i: nat)
    requires i < |xs|
    ensures Gather(f, xs[..i + 1]) == Gather(f, xs[..i]) + f(xs[i])
  {
    assert xs[..i + 1][..i] == xs[..i];
  }

  lemma {:induction false} GatherAppend<A, B>(f: A -> seq<B>, a: seq<A>, b: seq<A>)
    ensures Gather(f, a + b) == Gather(f, a) + Gather(f, b)
    decreases |b|
  {
    if b == [] {
      assert a + b == a;
    } else {
      var b' := b[..|b| - 1];
      assert (a + b)[..|a + b| - 1] == a + b';
      assert (a + b)[|a + b| - 1] == b[|b| - 1];
      GatherAppend(f, a, b');
    }
  }

  /** Every gathered value is a result of one of the elements. */
  lemma {:induction false} GatherFrom<A, B>(f: A -> seq<B>, xs: seq<A>, y: B)
    requires y in Gather(f, xs)
    ensures exists i :: 0 <= i < |xs| && y in f(xs[i])
    decreases |xs|
  {
    var init := xs[..|xs| - 1];
    if y in Gather(f, init) {
      GatherFrom(f, init, y);
      var i :| 0 <= i < |init| && y in f(init[i]);
      assert xs[i] == init[i];
    } else {
      assert y in f(xs[|xs| - 1]);
    }
  }

  /** Every result of every element is gathered. */
  lemma {:induction false} GatherCovers<A, B>(f: A -> seq<B>, xs: seq<A>, i: nat, y: B)
    requires i < |xs| && y in f(xs[i])
    ensures y in Gather(f, xs)
    decreases |xs|
  {
    var init := xs[..|xs| - 1];
    if i < |init| {
      assert xs[i] == init[i];
      GatherCovers(f, init, i, y);
    }
  }
}
