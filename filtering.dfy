/**
  Keeping the successful outcomes of a per-element step, in order: the shape
  of both upload loops, which push the record of every row that is not
  skipped.
*/
module Filtering {
  import opened Wrappers

  /** The values of the `Ok` outcomes of `step` over `xs`, in order. */
  function Keep<A, B, E>(xs: seq<A>, step: A -> Result<B, E>): (r: seq<B>)
    ensures |r| <= |xs|
  {
    if xs == [] then []
    else
      Keep(xs[..|xs| - 1], step)
        + (match step(xs[|xs| - 1]) case Ok(b) => [b] case Err(_) => [])
  }

  /** The positions whose outcome is `Ok`, in increasing order. */
  function OkIndices<A, B, E>(xs: seq<A>, step: A -> Result<B, E>): (idx: seq<nat>)
    ensures forall k :: 0 <= k < |idx| ==> idx[k] < |xs|
    ensures forall k, l :: 0 <= k < l < |idx| ==> idx[k] < idx[l]
    ensures forall i :: 0 <= i < |xs| ==> (i in idx <==> step(xs[i]).Ok?)
  {
    if xs == [] then []
    else
      var n := |xs| - 1;
      var front := OkIndices(xs[..n], step);
      assert forall i :: 0 <= i < n ==> xs[..n][i] == xs[i];
      if step(xs[n]).Ok? then front + [n] else front
  }

  /**
    `Keep` is an order-preserving subsequence: its `k`-th value is the outcome
    at the `k`-th `Ok` position.
  */
  lemma {:induction false} KeepIsSubsequence<A, B, E>(xs: seq<A>, step: A -> Result<B, E>)
    ensures |Keep(xs, step)| == |OkIndices(xs, step)|
    ensures forall k :: 0 <= k < |Keep(xs, step)| ==> step(xs[OkIndices(xs, step)[k]]) == Ok(Keep(xs, step)[k])
  {
    if xs != [] {
      var n := |xs| - 1;
      var front := xs[..n];
      KeepIsSubsequence(front, step);
      var k0 := Keep(front, step);
      var i0 := OkIndices(front, step);
      OkAtGrow(xs, step, k0, i0);
      match step(xs[n])
      case Ok(b) =>
        OkAtAppend(xs, step, k0, i0, n, b);
        assert Keep(xs, step) == k0 + [b];
        assert OkIndices(xs, step) == i0 + [n];
      case Err(_) =>
        assert Keep(xs, step) == k0;
        assert OkIndices(xs, step) == i0;
    }
  }

  /** Position `idx[k]` of `xs` has the outcome `Ok(bs[k])`, for every `k`. */
  ghost predicate OkAt<A, B, E>(xs: seq<A>, step: A -> Result<B, E>, bs: seq<B>, idx: seq<nat>) {
    |bs| == |idx| && forall k :: 0 <= k < |bs| ==> idx[k] < |xs| && step(xs[idx[k]]) == Ok(bs[k])
  }

  lemma OkAtGrow<A, B, E>(xs: seq<A>, step: A -> Result<B, E>, bs: seq<B>, idx: seq<nat>)
    requires xs != [] && OkAt(xs[..|xs| - 1], step, bs, idx)
    ensures OkAt(xs, step, bs, idx)
  {
    forall k | 0 <= k < |bs|
      ensures idx[k] < |xs| && step(xs[idx[k]]) == Ok(bs[k])
    {
      assert xs[..|xs| - 1][idx[k]] == xs[idx[k]];
    }
  }

  lemma OkAtAppend<A, B, E>(xs: seq<A>, step: A -> Result<B, E>, bs: seq<B>, idx: seq<nat>, n: nat, b: B)
    requires OkAt(xs, step, bs, idx) && n < |xs| && step(xs[n]) == Ok(b)
    ensures OkAt(xs, step, bs + [b], idx + [n])
  {
  }

  /** The step is applied element by element, so a list split anywhere keeps the same values. */
  lemma {:induction false} KeepConcat<A, B, E>(xs: seq<A>, ys: seq<A>, step: A -> Result<B, E>)
    ensures Keep(xs + ys, step) == Keep(xs, step) + Keep(ys, step)
  {
    if ys == [] {
      assert xs + ys == xs;
    } else {
      var n := |ys| - 1;
      assert (xs + ys)[..|xs + ys| - 1] == xs + ys[..n];
      KeepConcat(xs, ys[..n], step);
    }
  }

  /** Every kept value is the outcome of some element. */
  lemma KeepMembers<A, B, E>(xs: seq<A>, step: A -> Result<B, E>, b: B)
    requires b in Keep(xs, step)
    ensures exists i :: 0 <= i < |xs| && step(xs[i]) == Ok(b)
  {
    KeepIsSubsequence(xs, step);
    var k :| 0 <= k < |Keep(xs, step)| && Keep(xs, step)[k] == b;
    var i := OkIndices(xs, step)[k];
    assert step(xs[i]) == Ok(b);
  }
}
