/** Order-preserving filtering of a sequence, the shape shared by every list the
    file views display. */
module Seqs {

  /** Keeps, in order, the elements that satisfy `keep`. */
  function Filter<T>(xs: seq<T>, keep: T -> bool): (r: seq<T>)
    ensures |r| <= |xs|
  {
    if xs == [] then []
    else (if keep(xs[0]) then [xs[0]] else []) + Filter(xs[1..], keep)
  }

  /** An element is in the filtered list exactly when it is in the input and passes. */
  lemma {:induction false} FilterMembership<T>(xs: seq<T>, keep: T -> bool, x: T)
    ensures x in Filter(xs, keep) <==> x in xs && keep(x)
  {
    if xs != [] {
      FilterMembership(xs[1..], keep, x);
      assert xs == [xs[0]] + xs[1..];
    }
  }

  /** `idx` picks out `a` from `b` at strictly increasing positions. */
  ghost predicate EmbedsAt<T>(a: seq<T>, b: seq<T>, idx: seq<nat>) {
    && |idx| == |a|
    && (forall k :: 0 <= k < |idx| ==> idx[k] < |b| && b[idx[k]] == a[k])
    && (forall k, l :: 0 <= k < l < |idx| ==> idx[k] < idx[l])
  }

  ghost predicate IsSubsequence<T>(a: seq<T>, b: seq<T>) {
    exists idx :: EmbedsAt(a, b, idx)
  }

  function Shift(idx: seq<nat>): (r: seq<nat>)
    ensures |r| == |idx|
    ensures forall k :: 0 <= k < |idx| ==> r[k] == idx[k] + 1
  {
    seq(|idx|, k requires 0 <= k < |idx| => idx[k] + 1)
  }

  lemma EmbedsShift<T>(a: seq<T>, b: seq<T>, idx: seq<nat>)
    requires b != [] && EmbedsAt(a, b[1..], idx)
    ensures EmbedsAt(a, b, Shift(idx))
  {
    forall k | 0 <= k < |idx|
      ensures Shift(idx)[k] < |b| && b[Shift(idx)[k]] == a[k]
    {
      assert b[idx[k] + 1] == b[1..][idx[k]];
    }
  }

  lemma EmbedsCons<T>(a: seq<T>, b: seq<T>, idx: seq<nat>)
    requires b != [] && EmbedsAt(a, b[1..], idx)
    ensures EmbedsAt([b[0]] + a, b, [0] + Shift(idx))
  {
    EmbedsShift(a, b, idx);
    var a' := [b[0]] + a;
    var idx' := [0] + Shift(idx);
    forall k | 0 <= k < |idx'|
      ensures idx'[k] < |b| && b[idx'[k]] == a'[k]
    {
      if k > 0 {
        assert idx'[k] == Shift(idx)[k - 1] && a'[k] == a[k - 1];
      }
    }
  }

  /** The filtered list is a subsequence of the input: same elements, same order. */
  lemma {:induction false} FilterEmbeds<T>(xs: seq<T>, keep: T -> bool) returns (idx: seq<nat>)
    ensures EmbedsAt(Filter(xs, keep), xs, idx)
  {
    if xs == [] {
      idx := [];
    } else {
      var tail := FilterEmbeds(xs[1..], keep);
      var rest := Filter(xs[1..], keep);
      if keep(xs[0]) {
        EmbedsCons(rest, xs, tail);
        idx := [0] + Shift(tail);
        assert Filter(xs, keep) == [xs[0]] + rest;
      } else {
        EmbedsShift(rest, xs, tail);
        idx := Shift(tail);
        assert Filter(xs, keep) == rest;
      }
    }
  }

  lemma FilterIsSubsequence<T>(xs: seq<T>, keep: T -> bool)
    ensures IsSubsequence(Filter(xs, keep), xs)
  {
    var idx := FilterEmbeds(xs, keep);
  }

  /** Filtering distributes over concatenation, so it never reorders. */
  lemma {:induction false} FilterConcat<T>(a: seq<T>, b: seq<T>, keep: T -> bool)
    ensures Filter(a + b, keep) == Filter(a, keep) + Filter(b, keep)
  {
    if a == [] {
      assert a + b == b;
    } else {
      var head := if keep(a[0]) then [a[0]] else [];
      assert (a + b)[0] == a[0] && (a + b)[1..] == a[1..] + b;
      assert Filter(a + b, keep) == head + Filter(a[1..] + b, keep);
      FilterConcat(a[1..], b, keep);
      assert Filter(a, keep) == head + Filter(a[1..], keep);
    }
  }

  /** Extending the input by one element extends the output by at most that element. */
  lemma FilterPrefixStep<T>(xs: seq<T>, n: nat, keep: T -> bool)
    requires n < |xs|
    ensures Filter(xs[..n + 1], keep) == Filter(xs[..n], keep) + (if keep(xs[n]) then [xs[n]] else [])
  {
    assert xs[..n + 1] == xs[..n] + [xs[n]];
    FilterConcat(xs[..n], [xs[n]], keep);
    var one := [xs[n]];
    assert one[1..] == [];
  }

  /** Filtering a filtered list again with the same predicate changes nothing. */
  lemma {:induction false} FilterIdempotent<T>(xs: seq<T>, keep: T -> bool)
    ensures Filter(Filter(xs, keep), keep) == Filter(xs, keep)
  {
    if xs != [] {
      FilterIdempotent(xs[1..], keep);
      var head := if keep(xs[0]) then [xs[0]] else [];
      FilterConcat(head, Filter(xs[1..], keep), keep);
      if keep(xs[0]) {
        assert Filter(head, keep) == [xs[0]] + Filter([], keep);
      }
    }
  }
}
