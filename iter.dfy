/** Rust's `Iterator::filter_map` over a finite sequence, and where its results come from. */
module Iter {
  import opened Wrappers

  /** `xs.iter().filter_map(f).collect()`: the values `f` yields, in order, skipping `None`. */
  function FilterMap<A, B>(xs: seq<A>, f: A -> Option<B>): (ys: seq<B>)
    ensures |ys| <= |xs|
  {
    if xs == [] then []
    else
      match f(xs[0])
      case Some(y) => [y] + FilterMap(xs[1..], f)
      case None => FilterMap(xs[1..], f)
  }

  /** What one element contributes: its value, or nothing. */
  function Yield<A, B>(x: A, f: A -> Option<B>): (ys: seq<B>)
    ensures f(x).None? ==> ys == []
    ensures f(x).Some? ==> ys == [f(x).value]
  {
    match f(x)
    case Some(y) => [y]
    case None => []
  }

  /** A non-empty sequence yields what its first element yields, then what the rest yield. */
  lemma FilterMapCons<A, B>(xs: seq<A>, f: A -> Option<B>)
    requires xs != []
    ensures FilterMap(xs, f) == Yield(xs[0], f) + FilterMap(xs[1..], f)
  {
  }

  /** Filtering a concatenation filters each part. */
  lemma {:induction false} FilterMapAppend<A, B>(xs: seq<A>, zs: seq<A>, f: A -> Option<B>)
    ensures FilterMap(xs + zs, f) == FilterMap(xs, f) + FilterMap(zs, f)
  {
    if xs != [] {
      assert (xs + zs)[0] == xs[0];
      assert (xs + zs)[1..] == xs[1..] + zs;
      FilterMapAppend(xs[1..], zs, f);
    } else {
      assert xs + zs == zs;
    }
  }

  /** A one-element sequence yields what its element yields. */
  lemma FilterMapOne<A, B>(x: A, f: A -> Option<B>)
    ensures FilterMap([x], f) == Yield(x, f)
  {
    assert [x][1..] == [];
  }

  /** When every element yields a value, the result is exactly those values, one per element. */
  lemma {:induction false} FilterMapAll<A, B>(xs: seq<A>, f: A -> Option<B>, ys: seq<B>)
    requires |xs| == |ys|
    requires forall k :: 0 <= k < |xs| ==> f(xs[k]) == Some(ys[k])
    ensures FilterMap(xs, f) == ys
  {
    if xs != [] {
      assert f(xs[0]) == Some(ys[0]);
      FilterMapAll(xs[1..], f, ys[1..]);
      assert ys == [ys[0]] + ys[1..];
    }
  }

  /** The first `k + 1` elements yield what the first yields, then what the next `k` yield. */
  lemma PrefixYield<A, B>(xs: seq<A>, f: A -> Option<B>, k: nat)
    requires k < |xs|
    ensures FilterMap(xs[..k + 1], f) == Yield(xs[0], f) + FilterMap(xs[1..][..k], f)
  {
    var p := xs[..k + 1];
    assert p[0] == xs[0];
    assert p[1..] == xs[1..][..k];
    FilterMapCons(p, f);
  }

  /** The element the `i`-th value comes from: one at index `i` or later whose predecessors
      yield exactly the values before the `i`-th. */
  function Origin<A, B>(xs: seq<A>, f: A -> Option<B>, i: nat): (k: nat)
    requires i < |FilterMap(xs, f)|
    ensures i <= k < |xs| && f(xs[k]) == Some(FilterMap(xs, f)[i])
    ensures FilterMap(xs[..k], f) == FilterMap(xs, f)[..i]
    decreases |xs|
  {
    var h := |Yield(xs[0], f)|;
    if h == 1 && i == 0 then
      0
    else
      OriginStep(xs, f, i, Origin(xs[1..], f, i - h));
      Origin(xs[1..], f, i - h) + 1
  }

  /** The inductive step of `Origin`: an origin among the elements after the first, shifted by
      one, is an origin in the whole sequence. */
  lemma OriginStep<A, B>(xs: seq<A>, f: A -> Option<B>, i: nat, k': nat)
    requires xs != [] && |Yield(xs[0], f)| <= i < |FilterMap(xs, f)|
    requires i - |Yield(xs[0], f)| < |FilterMap(xs[1..], f)| && i - |Yield(xs[0], f)| <= k' < |xs| - 1
    requires f(xs[1..][k']) == Some(FilterMap(xs[1..], f)[i - |Yield(xs[0], f)|])
    requires FilterMap(xs[1..][..k'], f) == FilterMap(xs[1..], f)[..i - |Yield(xs[0], f)|]
    ensures i <= k' + 1 < |xs| && f(xs[k' + 1]) == Some(FilterMap(xs, f)[i])
    ensures FilterMap(xs[..k' + 1], f) == FilterMap(xs, f)[..i]
  {
    var head, rest, all := Yield(xs[0], f), FilterMap(xs[1..], f), FilterMap(xs, f);
    var h := |head|;
    assert all == head + rest by { FilterMapCons(xs, f); }
    assert xs[k' + 1] == xs[1..][k'];
    assert all[i] == rest[i - h];
    assert FilterMap(xs[..k' + 1], f) == head + FilterMap(xs[1..][..k'], f) by { PrefixYield(xs, f, k'); }
    assert all[..i] == head + rest[..i - h];
  }

  /** Later values come from later elements. */
  lemma OriginsIncrease<A, B>(xs: seq<A>, f: A -> Option<B>, i: nat, j: nat)
    requires i < j < |FilterMap(xs, f)|
    ensures Origin(xs, f, i) < Origin(xs, f, j)
  {
    var ki, kj := Origin(xs, f, i), Origin(xs, f, j);
    var ys := FilterMap(xs, f);
    assert |FilterMap(xs[..ki], f)| == i by { assert |ys[..i]| == i; }
    assert |FilterMap(xs[..kj], f)| == j by { assert |ys[..j]| == j; }
    if kj <= ki {
      assert xs[..ki] == xs[..kj] + xs[kj..ki];
      FilterMapAppend(xs[..kj], xs[kj..ki], f);
      assert false;
    }
  }
}
