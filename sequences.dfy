/**
 * Concatenating per-element outputs in order: the shape shared by "one
 * callback, at most one row" and "one file line, at most one data row".
 * Proved once at abstract element types.
 */
module Sequences {

  /** `f` applied to each element of `xs`, the results concatenated in order. */
  function FlatMap<A, B>(f: A -> seq<B>, xs: seq<A>): (ys: seq<B>) {
    if xs == [] then [] else FlatMap(f, xs[..|xs| - 1]) + f(xs[|xs| - 1])
  }

  /** Adding one element at the end adds its output at the end. */
  lemma FlatMapSnoc<A, B>(f: A -> seq<B>, xs: seq<A>, x: A)
    ensures FlatMap(f, xs + [x]) == FlatMap(f, xs) + f(x)
  {
    assert (xs + [x])[..|xs|] == xs;
  }

  /** The output of a concatenation is the concatenation of the outputs. */
  lemma {:induction false} FlatMapAppend<A, B>(f: A -> seq<B>, a: seq<A>, b: seq<A>)
    ensures FlatMap(f, a + b) == FlatMap(f, a) + FlatMap(f, b)
  {
    if b == [] {
      assert a + b == a;
    } else {
      var init, last := b[..|b| - 1], b[|b| - 1];
      assert a + b == (a + init) + [last];
      assert b == init + [last];
      FlatMapSnoc(f, a + init, last);
      FlatMapSnoc(f, init, last);
      FlatMapAppend(f, a, init);
    }
  }

  /** When every element yields at most one output, there are at most as many outputs as inputs. */
  lemma {:induction false} FlatMapAtMostOne<A, B>(f: A -> seq<B>, xs: seq<A>)
    requires forall i :: 0 <= i < |xs| ==> |f(xs[i])| <= 1
    ensures |FlatMap(f, xs)| <= |xs|
  {
    if xs != [] {
      FlatMapAtMostOne(f, xs[..|xs| - 1]);
    }
  }

  /** When every element yields nothing, there is no output. */
  lemma {:induction false} FlatMapNone<A, B>(f: A -> seq<B>, xs: seq<A>)
    requires forall i :: 0 <= i < |xs| ==> f(xs[i]) == []
    ensures FlatMap(f, xs) == []
  {
    if xs != [] {
      FlatMapNone(f, xs[..|xs| - 1]);
    }
  }

  /** When every element yields exactly one output, the i-th output comes from the i-th input. */
  lemma {:induction false} FlatMapExactlyOne<A, B>(f: A -> seq<B>, xs: seq<A>)
    requires forall i :: 0 <= i < |xs| ==> |f(xs[i])| == 1
    ensures |FlatMap(f, xs)| == |xs|
    ensures forall i :: 0 <= i < |xs| ==> FlatMap(f, xs)[i] == f(xs[i])[0]
  {
    if xs != [] {
      FlatMapExactlyOne(f, xs[..|xs| - 1]);
    }
  }

  /** Every output was produced by some input. */
  lemma {:induction false} FlatMapOrigin<A, B>(f: A -> seq<B>, xs: seq<A>, j: nat)
    requires j < |FlatMap(f, xs)|
    ensures exists i :: 0 <= i < |xs| && FlatMap(f, xs)[j] in f(xs[i])
  {
    var init := xs[..|xs| - 1];
    var n := |FlatMap(f, init)|;
    if j < n {
      FlatMapOrigin(f, init, j);
      var i :| 0 <= i < |init| && FlatMap(f, init)[j] in f(init[i]);
      assert xs[i] == init[i];
    } else {
      assert FlatMap(f, xs)[j] == f(xs[|xs| - 1])[j - n];
    }
  }
}
