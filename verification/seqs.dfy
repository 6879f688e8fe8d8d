/** Sequence helpers shared by the download loop and the batch driver:
    a loop that visits a list in order and records a value for some of its
    elements. */
module Seqs {
  /** The images under `f` of the elements of `xs` that `keep` accepts, in
      the order of `xs`. */
  function FilterMap<T, U>(xs: seq<T>, keep: T -> bool, f: T -> U): (r: seq<U>)
    ensures |r| <= |xs|
  {
    if xs == [] then []
    else
      var x := xs[|xs| - 1];
      FilterMap(xs[..|xs| - 1], keep, f) + if keep(x) then [f(x)] else []
  }

  /** How many elements `keep` accepts. */
  function Count<T>(xs: seq<T>, keep: T -> bool): (n: nat)
    ensures n <= |xs|
  {
    if xs == [] then 0
    else Count(xs[..|xs| - 1], keep) + if keep(xs[|xs| - 1]) then 1 else 0
  }

  /** Every accepted element has its image in the result. */
  lemma {:induction false} FilterMapComplete<T, U>(xs: seq<T>, keep: T -> bool, f: T -> U, i: nat)
    requires i < |xs| && keep(xs[i])
    ensures f(xs[i]) in FilterMap(xs, keep, f)
  {
    var k := |xs| - 1;
    if i < k {
      assert xs[..k][i] == xs[i];
      FilterMapComplete(xs[..k], keep, f, i);
    }
  }

  /** Every element of the result is the image of an accepted element. */
  lemma {:induction false} FilterMapOrigin<T, U>(xs: seq<T>, keep: T -> bool, f: T -> U)
    ensures forall y :: y in FilterMap(xs, keep, f) ==>
      exists i :: 0 <= i < |xs| && keep(xs[i]) && y == f(xs[i])
  {
    if xs != [] {
      var k := |xs| - 1;
      var init := xs[..k];
      FilterMapOrigin(init, keep, f);
      forall y | y in FilterMap(xs, keep, f)
        ensures exists i :: 0 <= i < |xs| && keep(xs[i]) && y == f(xs[i])
      {
        if y in FilterMap(init, keep, f) {
          var i :| 0 <= i < k && keep(init[i]) && y == f(init[i]);
          assert xs[i] == init[i];
        } else {
          assert keep(xs[k]) && y == f(xs[k]);
        }
      }
    }
  }

  /** There is one image per accepted element. */
  lemma {:induction false} FilterMapLength<T, U>(xs: seq<T>, keep: T -> bool, f: T -> U)
    ensures |FilterMap(xs, keep, f)| == Count(xs, keep)
  {
    if xs != [] {
      FilterMapLength(xs[..|xs| - 1], keep, f);
    }
  }

  /** Visiting two lists one after the other records the values of each in
      turn. */
  lemma {:induction false} FilterMapAppend<T, U>(a: seq<T>, b: seq<T>, keep: T -> bool, f: T -> U)
    ensures FilterMap(a + b, keep, f) == FilterMap(a, keep, f) + FilterMap(b, keep, f)
  {
    if b != [] {
      var k := |b| - 1;
      assert (a + b)[..|a + b| - 1] == a + b[..k];
      FilterMapAppend(a, b[..k], keep, f);
    } else {
      assert a + b == a;
    }
  }
}
