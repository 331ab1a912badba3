/** The `filteredData` range filter of the dashboard: keep, in order, the
    aggregated products whose sold count and average price both lie in
    closed intervals. */
module RangeFilter {
  import opened Numbers
  import opened Types

  /** A closed interval `[lo, hi]` of JavaScript numbers, as the dashboard
      stores it in a two-element array. */
  datatype Range = Range(lo: Num, hi: Num)

  /** `x >= r.lo && x <= r.hi`, with JavaScript comparisons. */
  predicate InRange(x: Num, r: Range)
  {
    Le(r.lo, x) && Le(x, r.hi)
  }

  /** The predicate handed to `Array.prototype.filter`. */
  predicate Passes(p: AggregatedProduct, soldRange: Range, priceRange: Range)
  {
    InRange(OfNat(p.sold_count), soldRange) && InRange(p.avg_price, priceRange)
  }

  /** The products of `agg` that pass both ranges, in their original order. */
  function Filter(agg: seq<AggregatedProduct>, soldRange: Range, priceRange: Range): (r: seq<AggregatedProduct>)
    ensures |r| <= |agg|
    ensures forall i :: 0 <= i < |r| ==> Passes(r[i], soldRange, priceRange) && !r[i].avg_price.NaN?
  {
    if |agg| == 0 then []
    else
      var last := agg[|agg| - 1];
      Filter(agg[..|agg| - 1], soldRange, priceRange) + (if Passes(last, soldRange, priceRange) then [last] else [])
  }

  /** The filter's result is the subsequence of `agg` at exactly the
      positions whose product passes: `idx` lists those positions in
      increasing order. */
  lemma {:induction false} FilterExact(agg: seq<AggregatedProduct>, soldRange: Range, priceRange: Range)
    returns (idx: seq<nat>)
    ensures |idx| == |Filter(agg, soldRange, priceRange)|
    ensures forall k :: 0 <= k < |idx| ==> idx[k] < |agg| && Filter(agg, soldRange, priceRange)[k] == agg[idx[k]]
    ensures forall k, l :: 0 <= k < l < |idx| ==> idx[k] < idx[l]
    ensures forall j :: 0 <= j < |agg| ==> (j in idx <==> Passes(agg[j], soldRange, priceRange))
  {
    if |agg| == 0 {
      idx := [];
    } else {
      var n := |agg| - 1;
      var front := agg[..n];
      var pre := FilterExact(front, soldRange, priceRange);
      var keep := Passes(agg[n], soldRange, priceRange);
      var tail: seq<nat> := if keep then [n] else [];
      idx := pre + tail;
      var rf := Filter(front, soldRange, priceRange);
      var r := rf + (if keep then [agg[n]] else []);
      assert Filter(agg, soldRange, priceRange) == r;
      forall k | 0 <= k < |idx| ensures idx[k] < |agg| && r[k] == agg[idx[k]] {
        if k < |pre| {
          assert idx[k] == pre[k] && r[k] == rf[k];
          assert agg[pre[k]] == front[pre[k]];
        }
      }
      assert forall k :: 0 <= k < |pre| ==> pre[k] < n;
      forall k, l | 0 <= k < l < |idx| ensures idx[k] < idx[l] {
        assert idx[k] == pre[k];
      }
      ExtendPassing(agg, pre, n, soldRange, priceRange);
    }
  }

  lemma ExtendPassing(agg: seq<AggregatedProduct>, pre: seq<nat>, n: nat, soldRange: Range, priceRange: Range)
    requires n == |agg| - 1
    requires forall k :: 0 <= k < |pre| ==> pre[k] < n
    requires forall j :: 0 <= j < n ==> (j in pre <==> Passes(agg[..n][j], soldRange, priceRange))
    ensures var idx := pre + (if Passes(agg[n], soldRange, priceRange) then [n] else []);
      forall j :: 0 <= j < |agg| ==> (j in idx <==> Passes(agg[j], soldRange, priceRange))
  {
  }

  /** A product is in the result exactly when it is in the input and
      passes both ranges. */
  lemma {:induction false} FilterMembers(agg: seq<AggregatedProduct>, soldRange: Range, priceRange: Range)
    ensures forall p :: p in Filter(agg, soldRange, priceRange) <==> p in agg && Passes(p, soldRange, priceRange)
  {
    if |agg| > 0 {
      var n := |agg| - 1;
      FilterMembers(agg[..n], soldRange, priceRange);
      assert agg == agg[..n] + [agg[n]];
    }
  }

  /** Both bounds are inclusive, so a second pass with the same ranges
      removes nothing. */
  lemma {:induction false} FilterIdempotent(agg: seq<AggregatedProduct>, soldRange: Range, priceRange: Range)
    ensures Filter(Filter(agg, soldRange, priceRange), soldRange, priceRange) == Filter(agg, soldRange, priceRange)
  {
    var r := Filter(agg, soldRange, priceRange);
    FilterKeepsAll(r, soldRange, priceRange);
  }

  /** When every product passes, the filter returns its input unchanged. */
  lemma {:induction false} FilterKeepsAll(agg: seq<AggregatedProduct>, soldRange: Range, priceRange: Range)
    requires forall i :: 0 <= i < |agg| ==> Passes(agg[i], soldRange, priceRange)
    ensures Filter(agg, soldRange, priceRange) == agg
  {
    if |agg| > 0 {
      var n := |agg| - 1;
      FilterKeepsAll(agg[..n], soldRange, priceRange);
      assert agg[..n] + [agg[n]] == agg;
    }
  }
}
