/**
  Concatenating the per-element lists of a sequence: the shape shared by the
  loop over type names, the loop over view suffixes and the host's lookup of
  files per candidate name, each of which appends one list per element.
 */
module Sequences {

  /** `f(xs[0]) + f(xs[1]) + ... + f(xs[|xs| - 1])`. */
  function FlatMap<T, U>(f: T -> seq<U>, xs: seq<T>): seq<U>
    decreases |xs|
  {
    if |xs| == 0 then []
    else
      var n := |xs| - 1;
      FlatMap(f, xs[..n]) + f(xs[n])
  }

  /** Extending the input by one element extends the output by that element's list. */
  lemma FlatMapSnoc<T, U>(f: T -> seq<U>, xs: seq<T>, x: T)
    ensures FlatMap(f, xs + [x]) == FlatMap(f, xs) + f(x)
  {
    assert (xs + [x])[..|xs|] == xs;
  }

  /** `FlatMap` is a homomorphism from concatenation to concatenation. */
  lemma {:induction false} FlatMapAppend<T, U>(f: T -> seq<U>, xs: seq<T>, ys: seq<T>)
    ensures FlatMap(f, xs + ys) == FlatMap(f, xs) + FlatMap(f, ys)
    decreases |ys|
  {
    if |ys| == 0 {
      assert xs + ys == xs;
    } else {
      var n := |ys| - 1;
      assert xs + ys == (xs + ys[..n]) + [ys[n]];
      FlatMapSnoc(f, xs + ys[..n], ys[n]);
      FlatMapAppend(f, xs, ys[..n]);
      assert ys == ys[..n] + [ys[n]];
      FlatMapSnoc(f, ys[..n], ys[n]);
    }
  }

  /** Elements whose lists are all empty contribute nothing. */
  lemma {:induction false} FlatMapOfEmpties<T, U>(f: T -> seq<U>, xs: seq<T>)
    requires forall i :: 0 <= i < |xs| ==> f(xs[i]) == []
    ensures FlatMap(f, xs) == []
    decreases |xs|
  {
    if |xs| > 0 {
      FlatMapOfEmpties(f, xs[..|xs| - 1]);
    }
  }

  /** When only `xs[k]` has a non-empty list, the output is that list. */
  lemma {:induction false} FlatMapOfSingle<T, U>(f: T -> seq<U>, xs: seq<T>, k: nat)
    requires k < |xs|
    requires forall i :: 0 <= i < |xs| && i != k ==> f(xs[i]) == []
    ensures FlatMap(f, xs) == f(xs[k])
    decreases |xs|
  {
    var n := |xs| - 1;
    var init := xs[..n];
    assert forall i :: 0 <= i < n ==> init[i] == xs[i];
    if k == n {
      FlatMapOfEmpties(f, init);
    } else {
      FlatMapOfSingle(f, init, k);
    }
  }

  /** An element of the output comes from the list of some input element, and
      every element of every input element's list is in the output. */
  lemma {:induction false} FlatMapMembership<T, U>(f: T -> seq<U>, xs: seq<T>, y: U)
    ensures y in FlatMap(f, xs) <==> exists i :: 0 <= i < |xs| && y in f(xs[i])
    decreases |xs|
  {
    if |xs| > 0 {
      var n := |xs| - 1;
      FlatMapMembership(f, xs[..n], y);
      if y in FlatMap(f, xs[..n]) {
        var i :| 0 <= i < n && y in f(xs[..n][i]);
        assert xs[..n][i] == xs[i];
      }
      if i :| 0 <= i < |xs| && y in f(xs[i]) {
        if i < n {
          assert xs[..n][i] == xs[i];
        }
      }
    }
  }
}
