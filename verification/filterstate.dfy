/** The dashboard's filter state: the two ranges and the highlighted
    preset, changed by `applyPreset`, `resetFilters` and the four number
    inputs, and read by `filteredData` and the two totals. */
module FilterState {
  import opened Wrappers
  import opened Numbers
  import opened Types
  import opened RangeFilter
  import opened Ranking
  import opened Aggregation
  import opened SeqFacts

  const DefaultSoldRange: Range := Range(Fin(0.0), Fin(100.0))
  const DefaultPriceRange: Range := Range(Fin(0.0), Fin(10000.0))

  const Top5: string := "top5"
  const Top10Revenue: string := "top10revenue"

  datatype State = State(soldCountRange: Range, avgPriceRange: Range, activePreset: Option<string>)

  /** The state the `useState` hooks start in. */
  const Initial: State := State(DefaultSoldRange, DefaultPriceRange, None)

  /** Lower sold-count bound of `top5`: `Math.min` of the sold counts of the
      five best sellers (+Infinity when there are no products). */
  function Top5Lower(agg: seq<AggregatedProduct>): Num
  {
    MathMin(Top(agg, BySold, 5), BySold)
  }

  /** Lower price bound of `top10revenue`: the smallest revenue among the
      ten highest-revenue products over the largest sold count among those
      same ten, times 0.9. With no products this is
      `Infinity / -Infinity`, which is NaN. */
  function Top10RevenueLower(agg: seq<AggregatedProduct>): Num
  {
    var t := Top(agg, ByRevenue, 10);
    if |t| == 0 then NaN
    else Scale(Div(MinOf(t, ByRevenue), MaxOf(t, BySold)), 0.9)
  }

  /** `applyPreset(preset)`: the preset is highlighted whatever its name; the
      two known presets also replace both ranges, any other name leaves them. */
  function ApplyPreset(s: State, preset: string, agg: seq<AggregatedProduct>): (r: State)
    ensures r.activePreset == Some(preset)
    ensures preset != Top5 && preset != Top10Revenue ==>
              r.soldCountRange == s.soldCountRange && r.avgPriceRange == s.avgPriceRange
  {
    if preset == Top5 then
      State(Range(Top5Lower(agg), Fin(100.0)), DefaultPriceRange, Some(preset))
    else if preset == Top10Revenue then
      State(DefaultSoldRange, Range(Top10RevenueLower(agg), Fin(10000.0)), Some(preset))
    else
      s.(activePreset := Some(preset))
  }

  /** `resetFilters()`. */
  function ResetFilters(s: State): (r: State)
    ensures r.activePreset == None
    ensures r.soldCountRange == Range(Fin(0.0), Fin(100.0))
    ensures r.avgPriceRange == Range(Fin(0.0), Fin(10000.0))
  {
    State(DefaultSoldRange, DefaultPriceRange, None)
  }

  /** Which end of a range a number input edits. */
  datatype End = Lower | Upper

  function SetEnd(r: Range, e: End, v: Num): Range
  {
    match e
    case Lower => Range(v, r.hi)
    case Upper => Range(r.lo, v)
  }

  /** One of the two sold-count inputs: replaces one end, keeps the other
      and leaves the highlighted preset as it was. */
  function EditSoldCount(s: State, e: End, v: Num): (r: State)
    ensures r.avgPriceRange == s.avgPriceRange && r.activePreset == s.activePreset
    ensures e == Lower ==> r.soldCountRange == Range(v, s.soldCountRange.hi)
    ensures e == Upper ==> r.soldCountRange == Range(s.soldCountRange.lo, v)
  {
    s.(soldCountRange := SetEnd(s.soldCountRange, e, v))
  }

  /** One of the two price inputs, likewise. */
  function EditAvgPrice(s: State, e: End, v: Num): (r: State)
    ensures r.soldCountRange == s.soldCountRange && r.activePreset == s.activePreset
    ensures e == Lower ==> r.avgPriceRange == Range(v, s.avgPriceRange.hi)
    ensures e == Upper ==> r.avgPriceRange == Range(s.avgPriceRange.lo, v)
  {
    s.(avgPriceRange := SetEnd(s.avgPriceRange, e, v))
  }

  /** `filteredData` for a state. */
  function Visible(s: State, agg: seq<AggregatedProduct>): seq<AggregatedProduct>
  {
    Filter(agg, s.soldCountRange, s.avgPriceRange)
  }

  /** Reset returns to the initial state from any state, so what is shown
      afterwards does not depend on earlier preset or edits. */
  lemma ResetRestoresInitial(s: State, agg: seq<AggregatedProduct>)
    ensures ResetFilters(s) == Initial
    ensures Visible(ResetFilters(s), agg) == Visible(Initial, agg)
  {
  }

  /** `top5` on a non-empty aggregate sets the sold-count range to
      `[m, 100]` where `m` is the `min(5, n)`-th largest sold count (a
      property of the data alone, whatever the tie order), and resets the
      price range; on an empty aggregate the lower bound is +Infinity. */
  lemma Top5Preset(s: State, agg: seq<AggregatedProduct>)
    ensures var r := ApplyPreset(s, Top5, agg);
      && r.activePreset == Some(Top5)
      && r.avgPriceRange == DefaultPriceRange
      && r.soldCountRange.hi == Fin(100.0)
      && (|agg| == 0 ==> r.soldCountRange.lo == PosInf)
      && (|agg| > 0 ==> r.soldCountRange.lo.Fin?)
      && (|agg| > 0 ==> IsNthLargest(agg, BySold, Min(5, |agg|), r.soldCountRange.lo.value))
  {
    if |agg| > 0 {
      TopThreshold(agg, BySold, 5);
    }
  }

  /** Every one of the five best sellers whose sold count is at most 100 and
      whose price lies in `[0, 10000]` is shown after `top5`. */
  lemma Top5ShowsBestSellers(s: State, agg: seq<AggregatedProduct>, p: AggregatedProduct)
    requires p in Top(agg, BySold, 5)
    requires p.sold_count <= 100
    requires InRange(p.avg_price, DefaultPriceRange)
    ensures p in Visible(ApplyPreset(s, Top5, agg), agg)
  {
    var t := Top(agg, BySold, 5);
    KeyWithinExtremes(t, BySold);
    assert Top5Lower(agg) == Fin(MinOf(t, BySold));
    ShownUnderTop5(s, agg, p);
  }

  lemma ShownUnderTop5(s: State, agg: seq<AggregatedProduct>, p: AggregatedProduct)
    requires p in agg
    requires Le(Top5Lower(agg), OfNat(p.sold_count))
    requires p.sold_count <= 100
    requires InRange(p.avg_price, DefaultPriceRange)
    ensures p in Visible(ApplyPreset(s, Top5, agg), agg)
  {
    var r := ApplyPreset(s, Top5, agg);
    assert r.soldCountRange == Range(Top5Lower(agg), Fin(100.0));
    assert r.avgPriceRange == DefaultPriceRange;
    FilterMembers(agg, r.soldCountRange, r.avgPriceRange);
  }

  /** The fixed upper bound of 100 can hide the best seller itself: with a
      single product that sold 150 units, `top5` shows nothing. */
  lemma Top5CanHideBestSeller()
    ensures var agg := [AggregatedProduct("A", 150, Fin(10.0), 1500.0)];
      && Top(agg, BySold, 5) == agg
      && Visible(ApplyPreset(Initial, Top5, agg), agg) == []
  {
    var agg := [AggregatedProduct("A", 150, Fin(10.0), 1500.0)];
    assert SortDesc(agg, BySold) == agg;
    assert agg[..0] == [];
  }

  /** `top10revenue` on a non-empty aggregate sets the price range to
      `[0.9 * minRev / maxSold, 10000]`: `minRev` is the `min(10, n)`-th
      largest revenue, `maxSold` the largest sold count among a ten-product
      top slice that holds every product earning more than `minRev`. The
      sold-count range is reset. On an empty aggregate the bound is NaN. */
  lemma Top10RevenuePreset(s: State, agg: seq<AggregatedProduct>)
    ensures var r := ApplyPreset(s, Top10Revenue, agg);
      && r.activePreset == Some(Top10Revenue)
      && r.soldCountRange == DefaultSoldRange
      && r.avgPriceRange.hi == Fin(10000.0)
      && (|agg| == 0 ==> r.avgPriceRange.lo == NaN)
  {
  }

  /** The `top10revenue` lower bound when none of the ten top earners sold
      anything: `minRev / 0` is +Infinity for a positive revenue, which
      hides every product, -Infinity for a negative one, which keeps every
      price up to 10000, and NaN for zero, which hides every product. */
  function ZeroSoldBound(minRev: real): Num
  {
    if minRev > 0.0 then PosInf else if minRev < 0.0 then NegInf else NaN
  }

  /** With that bound, a product with a finite average price passes the
      lower end exactly when the smallest top revenue is negative. */
  lemma ZeroSoldBoundAdmits(minRev: real, price: real)
    ensures Le(ZeroSoldBound(minRev), Fin(price)) <==> minRev < 0.0
  {
  }

  lemma Top10RevenueBound(s: State, agg: seq<AggregatedProduct>)
    requires |agg| > 0
    ensures var t := Top(agg, ByRevenue, 10);
      var minRev := MinOf(t, ByRevenue);
      var maxSold := MaxOf(t, BySold);
      var lo := ApplyPreset(s, Top10Revenue, agg).avgPriceRange.lo;
      && IsNthLargest(agg, ByRevenue, Min(10, |agg|), minRev)
      && (forall p :: p in agg && p.total_revenue > minRev ==> p in t)
      && (forall p :: p in t ==> p in agg && p.total_revenue >= minRev && p.sold_count as real <= maxSold)
      && (maxSold > 0.0 ==> lo == Fin(minRev / maxSold * 0.9))
      && (maxSold == 0.0 ==> lo == ZeroSoldBound(minRev))
  {
    var t := Top(agg, ByRevenue, 10);
    TopThreshold(agg, ByRevenue, 10);
    KeyWithinExtremes(t, ByRevenue);
    KeyWithinExtremes(t, BySold);
    Top10RevenueLowerValue(agg);
    assert ApplyPreset(s, Top10Revenue, agg).avgPriceRange.lo == Top10RevenueLower(agg);
  }

  lemma Top10RevenueLowerValue(agg: seq<AggregatedProduct>)
    requires |agg| > 0
    ensures var t := Top(agg, ByRevenue, 10);
      var minRev := MinOf(t, ByRevenue);
      var maxSold := MaxOf(t, BySold);
      && (maxSold > 0.0 ==> Top10RevenueLower(agg) == Fin(minRev / maxSold * 0.9))
      && (maxSold == 0.0 ==> Top10RevenueLower(agg) == ZeroSoldBound(minRev))
  {
  }

  /** Among the ten highest earners, when revenues are non-negative, a
      product with a positive sold count of at most 100 whose weighted
      average price is at most 10000 is shown after `top10revenue`: its
      price is its revenue over its sold count, at least the smallest
      revenue over the largest sold count, hence above 0.9 times that. */
  lemma Top10RevenueShowsTopEarners(s: State, agg: seq<AggregatedProduct>, p: AggregatedProduct)
    requires p in Top(agg, ByRevenue, 10)
    requires 0 < p.sold_count <= 100
    requires p.avg_price == Fin(p.total_revenue / (p.sold_count as real))
    requires p.total_revenue / (p.sold_count as real) <= 10000.0
    requires MinOf(Top(agg, ByRevenue, 10), ByRevenue) >= 0.0
    ensures p in Visible(ApplyPreset(s, Top10Revenue, agg), agg)
  {
    var t := Top(agg, ByRevenue, 10);
    KeyWithinExtremes(t, ByRevenue);
    KeyWithinExtremes(t, BySold);
    var minRev := MinOf(t, ByRevenue);
    var maxSold := MaxOf(t, BySold);
    QuotientBound(minRev, maxSold, p.total_revenue, p.sold_count as real);
    Top10RevenueLowerValue(agg);
    ShownUnderTop10Revenue(s, agg, p);
  }

  /** `a / b * 0.9 <= c / d` when `0 <= a <= c` and `0 < d <= b`. */
  lemma QuotientBound(a: real, b: real, c: real, d: real)
    requires 0.0 <= a <= c && 0.0 < d <= b
    ensures a / b * 0.9 <= c / d
  {
    assert a / b <= c / b;
    assert c / b <= c / d by {
      assert c / b == (c / d) * (d / b);
      assert d / b <= 1.0;
    }
  }

  lemma ShownUnderTop10Revenue(s: State, agg: seq<AggregatedProduct>, p: AggregatedProduct)
    requires p in agg
    requires p.sold_count <= 100
    requires Le(Top10RevenueLower(agg), p.avg_price) && Le(p.avg_price, Fin(10000.0))
    ensures p in Visible(ApplyPreset(s, Top10Revenue, agg), agg)
  {
    var lo := Top10RevenueLower(agg);
    assert ApplyPreset(s, Top10Revenue, agg) == State(DefaultSoldRange, Range(lo, Fin(10000.0)), Some(Top10Revenue));
    ShownUnderPriceBound(agg, p, lo);
  }

  lemma ShownUnderPriceBound(agg: seq<AggregatedProduct>, p: AggregatedProduct, lo: Num)
    requires p in agg
    requires p.sold_count <= 100
    requires Le(lo, p.avg_price) && Le(p.avg_price, Fin(10000.0))
    ensures p in Filter(agg, DefaultSoldRange, Range(lo, Fin(10000.0)))
  {
    assert InRange(OfNat(p.sold_count), DefaultSoldRange);
    assert InRange(p.avg_price, Range(lo, Fin(10000.0)));
    FilterMembers(agg, DefaultSoldRange, Range(lo, Fin(10000.0)));
  }

  /** Unlike the two `Math.min` thresholds, the `top10revenue` bound depends
      on the input order. Eleven products all earn 100, ten of them selling
      one unit and `q` selling fifty. Ties keep their order, so `q` is in
      the ten-product slice exactly when it comes first. The largest sold
      count in the slice is then 50 instead of 1, and the bound falls from
      90 to 1.8. */
  lemma Top10RevenueDependsOnOrder(ps: seq<AggregatedProduct>, q: AggregatedProduct)
    requires |ps| == 10
    requires forall i :: 0 <= i < |ps| ==> ps[i].total_revenue == 100.0 && ps[i].sold_count == 1
    requires q.total_revenue == 100.0 && q.sold_count == 50
    ensures Top10RevenueLower(ps + [q]) == Fin(90.0)
    ensures Top10RevenueLower([q] + ps) == Fin(1.8)
  {
    LowerWhenLast(ps, q);
    LowerWhenFirst(ps, q);
  }

  lemma LowerWhenLast(ps: seq<AggregatedProduct>, q: AggregatedProduct)
    requires |ps| == 10
    requires forall i :: 0 <= i < |ps| ==> ps[i].total_revenue == 100.0 && ps[i].sold_count == 1
    requires q.total_revenue == 100.0 && q.sold_count == 50
    ensures Top10RevenueLower(ps + [q]) == Fin(90.0)
  {
    var s := ps + [q];
    forall i | 0 <= i < |s| ensures s[i].total_revenue == 100.0 && (i < 10 ==> s[i].sold_count == 1) {
      if i < 10 {
        assert s[i] == ps[i];
      }
    }
    TiedLower(s, 100.0);
    assert s[..10] == ps;
    SliceExtremes(ps, 10, 1.0, 0);
  }

  lemma LowerWhenFirst(ps: seq<AggregatedProduct>, q: AggregatedProduct)
    requires |ps| == 10
    requires forall i :: 0 <= i < |ps| ==> ps[i].total_revenue == 100.0 && ps[i].sold_count == 1
    requires q.total_revenue == 100.0 && q.sold_count == 50
    ensures Top10RevenueLower([q] + ps) == Fin(1.8)
  {
    var s := [q] + ps;
    forall i | 0 <= i < |s| ensures s[i].total_revenue == 100.0 && s[i].sold_count as real <= 50.0 {
      if i > 0 {
        assert s[i] == ps[i - 1];
      }
    }
    TiedLower(s, 100.0);
    SliceExtremes(s, 10, 50.0, 0);
  }

  /** When every product earns the same, the ten-product slice is the first
      ten products in input order. */
  lemma TiedLower(s: seq<AggregatedProduct>, v: real)
    requires |s| >= 10
    requires forall i :: 0 <= i < |s| ==> s[i].total_revenue == v
    ensures Top10RevenueLower(s) == Scale(Div(MinOf(s[..10], ByRevenue), MaxOf(s[..10], BySold)), 0.9)
  {
    TiedSorted(s, ByRevenue, v);
    SortDescSorted(s, ByRevenue);
    assert Top(s, ByRevenue, 10) == s[..10];
  }

  lemma TiedSorted(s: seq<AggregatedProduct>, k: SortKey, v: real)
    requires forall i :: 0 <= i < |s| ==> Key(k, s[i]) == v
    ensures SortedDesc(s, k)
  {
  }

  /** Revenue 100 throughout, and a largest sold count `maxSold` in the
      first `n` products, reached at position `w`. */
  lemma SliceExtremes(s: seq<AggregatedProduct>, n: nat, maxSold: real, w: nat)
    requires 0 < n <= |s| && w < n && maxSold > 0.0
    requires forall i :: 0 <= i < |s| ==> s[i].total_revenue == 100.0 && s[i].sold_count as real <= maxSold
    requires s[w].sold_count as real == maxSold
    ensures Scale(Div(MinOf(s[..n], ByRevenue), MaxOf(s[..n], BySold)), 0.9) == Fin(100.0 / maxSold * 0.9)
  {
    var t := s[..n];
    assert Key(BySold, t[w]) <= MaxOf(t, BySold);
    var a :| 0 <= a < n && MinOf(t, ByRevenue) == Key(ByRevenue, t[a]);
    var b :| 0 <= b < n && MaxOf(t, BySold) == Key(BySold, t[b]);
    assert t[a] == s[a] && t[b] == s[b];
    assert MinOf(t, ByRevenue) == 100.0 && MaxOf(t, BySold) == maxSold;
    assert Div(100.0, maxSold) == Fin(100.0 / maxSold);
  }

  /** A product whose summed sold count is zero has average price `0 / 0`,
      which is NaN, and NaN fails every comparison: whatever the ranges,
      even the default ones that include a sold count of 0, it is never
      shown. */
  lemma ZeroSoldNeverShown(s: State, data: seq<ProductSale>, i: nat)
    requires i < |Aggregate(data)| && Aggregate(data)[i].sold_count == 0
    ensures Aggregate(data)[i] !in Visible(s, Aggregate(data))
  {
    var agg := Aggregate(data);
    assert agg[i].avg_price == NaN;
    FilterMembers(agg, s.soldCountRange, s.avgPriceRange);
  }

  /** Applying the same preset twice to the same data is the same as
      applying it once. */
  lemma ApplyPresetIdempotent(s: State, preset: string, agg: seq<AggregatedProduct>)
    ensures ApplyPreset(ApplyPreset(s, preset, agg), preset, agg) == ApplyPreset(s, preset, agg)
  {
  }
}
