/**
 * The few table primitives the pipelines rely on, stated over sequences:
 * a boolean mask (`df[mask]`), `Series.unique()` and the position at which a
 * value is first seen.
 */
module Frames {

  /** No value occurs twice. */
  predicate NoDup<T(==)>(s: seq<T>) {
    forall i, j :: 0 <= i < j < |s| ==> s[i] != s[j]
  }

  /** One column of a table: the value `f` reads from each row, in row order. */
  function Column<T, U>(rows: seq<T>, f: T -> U): (r: seq<U>)
    ensures |r| == |rows| && forall i :: 0 <= i < |rows| ==> r[i] == f(rows[i])
  {
    seq(|rows|, i requires 0 <= i < |rows| => f(rows[i]))
  }

  /** Keeps the elements that satisfy `p`, in their original order (a boolean mask). */
  function Filter<T(==,!new)>(xs: seq<T>, p: T -> bool): (r: seq<T>)
    ensures |r| <= |xs|
    ensures forall x :: x in r <==> x in xs && p(x)
  {
    if xs == [] then []
    else
      var n := |xs| - 1;
      assert xs == xs[..n] + [xs[n]];
      Filter(xs[..n], p) + (if p(xs[n]) then [xs[n]] else [])
  }

  /** A mask keeps every selected row as often as it occurs, and no other row. */
  lemma {:induction false} FilterCount<T(!new)>(xs: seq<T>, p: T -> bool)
    ensures forall x :: multiset(Filter(xs, p))[x] == if p(x) then multiset(xs)[x] else 0
  {
    if xs != [] {
      var n := |xs| - 1;
      assert xs == xs[..n] + [xs[n]];
      FilterCount(xs[..n], p);
    }
  }

  /** A mask distributes over concatenation: it never reorders rows. */
  lemma {:induction false} FilterConcat<T(!new)>(a: seq<T>, b: seq<T>, p: T -> bool)
    ensures Filter(a + b, p) == Filter(a, p) + Filter(b, p)
  {
    if b == [] {
      assert a + b == a;
    } else {
      var n := |b| - 1;
      assert (a + b)[..|a + b| - 1] == a + b[..n];
      assert (a + b)[|a + b| - 1] == b[n];
      FilterConcat(a, b[..n], p);
    }
  }

  /** Two masks that agree on every element select the same rows. */
  lemma {:induction false} FilterCongruent<T(!new)>(xs: seq<T>, p: T -> bool, q: T -> bool)
    requires forall x :: x in xs ==> p(x) == q(x)
    ensures Filter(xs, p) == Filter(xs, q)
  {
    if xs != [] {
      var n := |xs| - 1;
      assert forall x :: x in xs[..n] ==> x in xs;
      FilterCongruent(xs[..n], p, q);
    }
  }

  /** Applying two masks in turn is the mask of their conjunction. */
  lemma {:induction false} FilterFilter<T(!new)>(xs: seq<T>, p: T -> bool, q: T -> bool, pq: T -> bool)
    requires forall x :: pq(x) == (p(x) && q(x))
    ensures Filter(Filter(xs, p), q) == Filter(xs, pq)
  {
    if xs != [] {
      var n := |xs| - 1;
      FilterFilter(xs[..n], p, q, pq);
      var front := Filter(xs[..n], p);
      var last := if p(xs[n]) then [xs[n]] else [];
      FilterConcat(front, last, q);
      if p(xs[n]) {
        assert (front + last)[..|front + last| - 1] == front;
      }
    }
  }

  /** Position of the first occurrence of `x` in `xs`. */
  function FirstIndex<T(==)>(xs: seq<T>, x: T): (k: nat)
    requires x in xs
    ensures k < |xs| && xs[k] == x && x !in xs[..k]
  {
    var n := |xs| - 1;
    if x in xs[..n] then
      var k := FirstIndex(xs[..n], x);
      assert xs[..n][..k] == xs[..k];
      k
    else
      n
  }

  /** Appending an element does not move the first occurrence of a value already present. */
  lemma {:induction false} FirstIndexSnoc<T>(xs: seq<T>, y: T, x: T)
    requires x in xs
    ensures FirstIndex(xs + [y], x) == FirstIndex(xs, x)
  {
  }

  /** `Series.unique()`: every value once, in order of first appearance. */
  function Distinct<T(==,!new)>(xs: seq<T>): (r: seq<T>)
    ensures forall x :: x in r <==> x in xs
    ensures NoDup(r)
  {
    if xs == [] then []
    else
      var n := |xs| - 1;
      assert xs == xs[..n] + [xs[n]];
      var d := Distinct(xs[..n]);
      if xs[n] in d then d else d + [xs[n]]
  }

  /** The values of `Distinct(xs)` appear in strictly increasing order of first occurrence in `xs`. */
  lemma {:induction false} DistinctFirstSeen<T(!new)>(xs: seq<T>)
    ensures forall i, j :: 0 <= i < j < |Distinct(xs)| ==>
      FirstIndex(xs, Distinct(xs)[i]) < FirstIndex(xs, Distinct(xs)[j])
  {
    if xs != [] {
      var n := |xs| - 1;
      var pre := xs[..n];
      assert xs == pre + [xs[n]];
      DistinctFirstSeen(pre);
      var d := Distinct(pre);
      var r := Distinct(xs);
      forall i, j | 0 <= i < j < |r|
        ensures FirstIndex(xs, r[i]) < FirstIndex(xs, r[j])
      {
        assert r[i] == d[i];
        FirstIndexSnoc(pre, xs[n], r[i]);
        if j < |d| {
          assert r[j] == d[j];
          FirstIndexSnoc(pre, xs[n], r[j]);
        } else {
          assert r[j] == xs[n] && xs[n] !in pre;
        }
      }
    }
  }

  /**
   * A mask keeps the relative order of first occurrences: among values it keeps,
   * one is first seen before another in the masked column exactly when it is in the whole column.
   */
  lemma {:induction false} FilterFirstSeen<T(!new)>(xs: seq<T>, p: T -> bool, v: T, w: T)
    requires v in xs && p(v) && w in xs && p(w)
    ensures FirstIndex(Filter(xs, p), v) < FirstIndex(Filter(xs, p), w) <==> FirstIndex(xs, v) < FirstIndex(xs, w)
  {
    var n := |xs| - 1;
    var pre, y := xs[..n], xs[n];
    assert xs == pre + [y];
    var f := Filter(pre, p);
    var tail := if p(y) then [y] else [];
    assert Filter(xs, p) == f + tail;
    if v in pre && w in pre {
      FilterFirstSeen(pre, p, v, w);
      FirstIndexSnoc(pre, y, v);
      FirstIndexSnoc(pre, y, w);
      if p(y) {
        FirstIndexSnoc(f, y, v);
        FirstIndexSnoc(f, y, w);
      } else {
        assert f + tail == f;
      }
    } else if v in pre {
      assert w == y && w !in f && tail == [w];
      FirstIndexSnoc(pre, y, v);
      FirstIndexSnoc(f, y, v);
      FirstIndexLast(pre, y);
      FirstIndexLast(f, y);
    } else if w in pre {
      assert v == y && v !in f && tail == [v];
      FirstIndexSnoc(pre, y, w);
      FirstIndexSnoc(f, y, w);
      FirstIndexLast(pre, y);
      FirstIndexLast(f, y);
    } else {
      assert v == y && w == y;
    }
  }

  /** A value not seen before is first seen where it is appended. */
  lemma {:induction false} FirstIndexLast<T>(xs: seq<T>, y: T)
    requires y !in xs
    ensures FirstIndex(xs + [y], y) == |xs|
  {
  }

  /** Sum of a numeric column. */
  function Sum<T>(xs: seq<T>, f: T -> real): real {
    if xs == [] then 0.0 else Sum(xs[..|xs| - 1], f) + f(xs[|xs| - 1])
  }

  lemma {:induction false} SumSnoc<T>(xs: seq<T>, y: T, f: T -> real)
    ensures Sum(xs + [y], f) == Sum(xs, f) + f(y)
  {
  }

  /** A mask and its complement split a column's sum between them. */
  lemma {:induction false} SumMaskSplit<T(!new)>(xs: seq<T>, p: T -> bool, q: T -> bool, f: T -> real)
    requires forall x :: q(x) == !p(x)
    ensures Sum(Filter(xs, p), f) + Sum(Filter(xs, q), f) == Sum(xs, f)
  {
    if xs != [] {
      var n := |xs| - 1;
      var pre, y := xs[..n], xs[n];
      SumMaskSplit(pre, p, q, f);
      assert Sum(xs, f) == Sum(pre, f) + f(y);
      var fp, fq := Filter(pre, p), Filter(pre, q);
      if p(y) {
        assert Filter(xs, p) == fp + [y] && Filter(xs, q) == fq;
        SumSnoc(fp, y, f);
      } else {
        assert Filter(xs, q) == fq + [y] && Filter(xs, p) == fp;
        SumSnoc(fq, y, f);
      }
    }
  }
}
