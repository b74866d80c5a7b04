/**
  The collection idioms the dashboard code leans on: `Array.filter`, and
  `Array.from(set).sort(...)` with the comparator of numbers (`a - b`) or
  the default one of text.
*/
module Collections {

  // ---------------------------------------------------------------------------
  // Filtering
  // ---------------------------------------------------------------------------

  /** `xs.filter(p)`. */
  function Where<T(!new)>(xs: seq<T>, p: T -> bool): (r: seq<T>)
    ensures |r| <= |xs|
    ensures forall x :: x in r <==> x in xs && p(x)
  {
    if xs == [] then []
    else
      var front := xs[..|xs| - 1];
      assert forall x :: x in xs <==> x in front || x == xs[|xs| - 1];
      Where(front, p) + (if p(xs[|xs| - 1]) then [xs[|xs| - 1]] else [])
  }

  /** The positions of the elements `p` keeps, in increasing order. */
  function WhereIndices<T(!new)>(xs: seq<T>, p: T -> bool): (idx: seq<nat>)
    ensures forall k :: 0 <= k < |idx| ==> idx[k] < |xs|
    ensures forall k, l :: 0 <= k < l < |idx| ==> idx[k] < idx[l]
    ensures forall i :: 0 <= i < |xs| ==> (i in idx <==> p(xs[i]))
  {
    if xs == [] then []
    else
      var n := |xs| - 1;
      var front := WhereIndices(xs[..n], p);
      assert forall i :: 0 <= i < n ==> xs[..n][i] == xs[i];
      if p(xs[n]) then front + [n] else front
  }

  /** `Where` keeps order: its `k`-th element is the element at the `k`-th kept position. */
  lemma {:induction false} WhereIsSubsequence<T(!new)>(xs: seq<T>, p: T -> bool)
    ensures |Where(xs, p)| == |WhereIndices(xs, p)|
    ensures forall k :: 0 <= k < |Where(xs, p)| ==> Where(xs, p)[k] == xs[WhereIndices(xs, p)[k]]
  {
    if xs != [] {
      var n := |xs| - 1;
      var front := xs[..n];
      WhereIsSubsequence(front, p);
      var w0 := Where(front, p);
      var i0 := WhereIndices(front, p);
      PickedGrow(xs, w0, i0);
      if p(xs[n]) {
        PickedAppend(xs, w0, i0, n);
        assert Where(xs, p) == w0 + [xs[n]];
        assert WhereIndices(xs, p) == i0 + [n];
      } else {
        assert Where(xs, p) == w0;
        assert WhereIndices(xs, p) == i0;
      }
    }
  }

  /** `ys[k]` is the element of `xs` at position `idx[k]`, for every `k`. */
  ghost predicate Picked<T>(xs: seq<T>, ys: seq<T>, idx: seq<nat>) {
    |ys| == |idx| && forall k :: 0 <= k < |ys| ==> idx[k] < |xs| && ys[k] == xs[idx[k]]
  }

  lemma PickedGrow<T>(xs: seq<T>, ys: seq<T>, idx: seq<nat>)
    requires xs != [] && Picked(xs[..|xs| - 1], ys, idx)
    ensures Picked(xs, ys, idx)
  {
    forall k | 0 <= k < |ys|
      ensures idx[k] < |xs| && ys[k] == xs[idx[k]]
    {
      assert xs[..|xs| - 1][idx[k]] == xs[idx[k]];
    }
  }

  lemma PickedAppend<T>(xs: seq<T>, ys: seq<T>, idx: seq<nat>, n: nat)
    requires Picked(xs, ys, idx) && n < |xs|
    ensures Picked(xs, ys + [xs[n]], idx + [n])
  {
  }

  /** Filtering a concatenation filters each part. */
  lemma {:induction false} WhereConcat<T(!new)>(xs: seq<T>, ys: seq<T>, p: T -> bool)
    ensures Where(xs + ys, p) == Where(xs, p) + Where(ys, p)
    decreases |ys|
  {
    if ys == [] {
      assert xs + ys == xs;
    } else {
      var n := |ys| - 1;
      ConcatFront(xs, ys);
      WhereConcat(xs, ys[..n], p);
      var w := Where(xs, p);
      var v := Where(ys[..n], p);
      var t := if p(ys[n]) then [ys[n]] else [];
      assert Where(xs + ys, p) == w + v + t;
      assert Where(ys, p) == v + t;
    }
  }

  lemma ConcatFront<T>(xs: seq<T>, ys: seq<T>)
    requires ys != []
    ensures (xs + ys)[..|xs + ys| - 1] == xs + ys[..|ys| - 1]
    ensures (xs + ys)[|xs + ys| - 1] == ys[|ys| - 1]
  {
  }

  // ---------------------------------------------------------------------------
  // Orders
  // ---------------------------------------------------------------------------

  /** `less` is irreflexive, transitive and relates any two different values one way or the other. */
  ghost predicate IsStrictTotalOrder<T(!new)>(less: (T, T) -> bool) {
    && (forall a :: !less(a, a))
    && (forall a, b, c :: less(a, b) && less(b, c) ==> less(a, c))
    && (forall a, b :: a != b ==> less(a, b) || less(b, a))
  }

  /** The order the comparator `(a, b) => a - b` sorts numbers by. */
  predicate IntLess(a: int, b: int) { a < b }

  /**
    The order `Array.prototype.sort` uses by default for text: character by
    character, a proper prefix first.
  */
  predicate TextLess(a: string, b: string)
    decreases |a|
  {
    if a == [] then b != []
    else if b == [] then false
    else if a[0] != b[0] then a[0] < b[0]
    else TextLess(a[1..], b[1..])
  }

  lemma IntLessIsStrictTotalOrder()
    ensures IsStrictTotalOrder(IntLess)
  {
  }

  lemma {:induction false} TextLessIrreflexive(a: string)
    ensures !TextLess(a, a)
    decreases |a|
  {
    if a != [] {
      TextLessIrreflexive(a[1..]);
    }
  }

  lemma {:induction false} TextLessTransitive(a: string, b: string, c: string)
    requires TextLess(a, b) && TextLess(b, c)
    ensures TextLess(a, c)
    decreases |a|
  {
    if a != [] {
      assert b != [] && c != [];
      if a[0] == b[0] && b[0] == c[0] {
        TextLessTransitive(a[1..], b[1..], c[1..]);
      }
    }
  }

  lemma {:induction false} TextLessTotal(a: string, b: string)
    requires a != b
    ensures TextLess(a, b) || TextLess(b, a)
    decreases |a|
  {
    if a != [] && b != [] && a[0] == b[0] {
      assert a == [a[0]] + a[1..] && b == [b[0]] + b[1..];
      TextLessTotal(a[1..], b[1..]);
    }
  }

  lemma TextLessIsStrictTotalOrder()
    ensures IsStrictTotalOrder(TextLess)
  {
    forall a: string
      ensures !TextLess(a, a)
    {
      TextLessIrreflexive(a);
    }
    forall a: string, b: string, c: string | TextLess(a, b) && TextLess(b, c)
      ensures TextLess(a, c)
    {
      TextLessTransitive(a, b, c);
    }
    forall a: string, b: string | a != b
      ensures TextLess(a, b) || TextLess(b, a)
    {
      TextLessTotal(a, b);
    }
  }

  // ---------------------------------------------------------------------------
  // Sorting the elements of a set
  // ---------------------------------------------------------------------------

  /** `m` is the element of `s` that every other element of `s` is below. */
  predicate IsLargest<T>(s: set<T>, m: T, less: (T, T) -> bool) {
    m in s && forall y :: y in s && y != m ==> less(y, m)
  }

  /** A set with an element has a largest element. */
  lemma {:induction false} HasLargest<T(!new)>(s: set<T>, x: T, less: (T, T) -> bool)
    requires IsStrictTotalOrder(less)
    requires x in s
    ensures exists m :: IsLargest(s, m, less)
    decreases |s|
  {
    var rest := s - {x};
    assert forall y :: y in s ==> y == x || y in rest;
    if forall y :: y !in rest {
      assert IsLargest(s, x, less);
    } else {
      var z :| z in rest;
      HasLargest(rest, z, less);
      var m :| IsLargest(rest, m, less);
      if less(m, x) {
        assert IsLargest(s, x, less);
      } else {
        assert IsLargest(s, m, less);
      }
    }
  }

  /** Taking the largest element out of a set leaves one element fewer, all below it. */
  lemma RemoveLargest<T>(s: set<T>, m: T, less: (T, T) -> bool)
    requires IsLargest(s, m, less)
    ensures |s - {m}| == |s| - 1
    ensures forall y :: y in s <==> y in s - {m} || y == m
    ensures forall y :: y in s - {m} ==> less(y, m)
  {
  }

  /** `Array.from(s).sort(...)` for the comparator of `less`: the elements of `s`, ascending. */
  function SortedSet<T(!new)>(s: set<T>, less: (T, T) -> bool): (r: seq<T>)
    requires IsStrictTotalOrder(less)
    ensures |r| == |s|
    ensures forall y :: y in s <==> y in r
    ensures forall i, j :: 0 <= i < j < |r| ==> less(r[i], r[j])
    decreases |s|
  {
    if forall y :: y !in s then
      assert s == {};
      []
    else
      var x :| x in s;
      HasLargest(s, x, less);
      var m :| IsLargest(s, m, less);
      var rest := s - {m};
      RemoveLargest(s, m, less);
      var front := SortedSet(rest, less);
      front + [m]
  }

  /** Ascending elements are pairwise different. */
  lemma AscendingIsDistinct<T(!new)>(r: seq<T>, less: (T, T) -> bool)
    requires IsStrictTotalOrder(less)
    requires forall i, j :: 0 <= i < j < |r| ==> less(r[i], r[j])
    ensures forall i, j :: 0 <= i < j < |r| ==> r[i] != r[j]
  {
  }
}
