/** The `totalRevenue` and `totalSold` folds of the dashboard, and how they
    relate to the raw sale records and to the range filter. */
module Totals {
  import opened Types
  import opened Aggregation
  import opened RangeFilter
  import opened SeqFacts
  import opened Ranking

  /** `products.reduce((sum, p) => sum + p.total_revenue, 0)`. */
  function TotalRevenue(products: seq<AggregatedProduct>): real
  {
    if |products| == 0 then 0.0
    else TotalRevenue(products[..|products| - 1]) + products[|products| - 1].total_revenue
  }

  /** `products.reduce((sum, p) => sum + p.sold_count, 0)`. */
  function TotalSold(products: seq<AggregatedProduct>): nat
  {
    if |products| == 0 then 0
    else TotalSold(products[..|products| - 1]) + products[|products| - 1].sold_count
  }

  /** Sum of `avg_price * sold_count` over raw sale records. */
  function InputRevenue(data: seq<ProductSale>): real
  {
    if |data| == 0 then 0.0 else InputRevenue(data[..|data| - 1]) + Revenue(data[|data| - 1])
  }

  /** Sum of `sold_count` over raw sale records. */
  function InputSold(data: seq<ProductSale>): nat
  {
    if |data| == 0 then 0 else InputSold(data[..|data| - 1]) + data[|data| - 1].sold_count
  }

  function GroupRevenue(groups: seq<Group>): real
  {
    if |groups| == 0 then 0.0 else GroupRevenue(groups[..|groups| - 1]) + groups[|groups| - 1].total_price
  }

  function GroupSold(groups: seq<Group>): nat
  {
    if |groups| == 0 then 0 else GroupSold(groups[..|groups| - 1]) + groups[|groups| - 1].sold_count
  }

  lemma {:induction false} GroupSumsUpdate(groups: seq<Group>, i: nat, g: Group)
    requires i < |groups|
    ensures GroupRevenue(groups[i := g]) == GroupRevenue(groups) - groups[i].total_price + g.total_price
    ensures GroupSold(groups[i := g]) == GroupSold(groups) - groups[i].sold_count + g.sold_count
  {
    var n := |groups| - 1;
    var u := groups[i := g];
    if i == n {
      assert u[..n] == groups[..n];
    } else {
      assert u[..n] == groups[..n][i := g];
      GroupSumsUpdate(groups[..n], i, g);
    }
  }

  /** Folding one record into the map adds exactly that record's sold count
      and revenue to the map's sums. */
  lemma StepSums(groups: seq<Group>, p: ProductSale)
    ensures GroupRevenue(Step(groups, p)) == GroupRevenue(groups) + Revenue(p)
    ensures GroupSold(Step(groups, p)) == GroupSold(groups) + p.sold_count
  {
    var e := Get(groups, p.name);
    var g := Group(p.name, e.sold_count + p.sold_count, e.total_price + Revenue(p), e.count + 1);
    assert Step(groups, p) == Put(groups, g);
    match IndexOf(groups, p.name)
    case Some(i) =>
      GroupSumsUpdate(groups, i, g);
    case None =>
      assert (groups + [g])[..|groups|] == groups;
  }

  lemma {:induction false} GroupByTotals(data: seq<ProductSale>)
    ensures GroupRevenue(GroupBy(data)) == InputRevenue(data)
    ensures GroupSold(GroupBy(data)) == InputSold(data)
  {
    if |data| > 0 {
      GroupByTotals(data[..|data| - 1]);
      StepSums(GroupBy(data[..|data| - 1]), data[|data| - 1]);
    }
  }

  lemma {:induction false} ProductSums(groups: seq<Group>, products: seq<AggregatedProduct>)
    requires |products| == |groups|
    requires forall i :: 0 <= i < |groups| ==> products[i] == ToProduct(groups[i])
    ensures TotalRevenue(products) == GroupRevenue(groups)
    ensures TotalSold(products) == GroupSold(groups)
  {
    if |groups| > 0 {
      var n := |groups| - 1;
      ProductSums(groups[..n], products[..n]);
    }
  }

  /** Aggregation neither loses nor invents revenue or units: the totals
      over the aggregated products equal the sums over the raw records. */
  lemma AggregateTotals(data: seq<ProductSale>)
    ensures TotalRevenue(Aggregate(data)) == InputRevenue(data)
    ensures TotalSold(Aggregate(data)) == InputSold(data)
  {
    var gs := GroupBy(data);
    var r := seq(|gs|, i requires 0 <= i < |gs| => ToProduct(gs[i]));
    assert Aggregate(data) == r;
    ProductSums(gs, r);
    GroupByTotals(data);
  }

  lemma {:induction false} InputSumsConcat(a: seq<ProductSale>, b: seq<ProductSale>)
    ensures InputRevenue(a + b) == InputRevenue(a) + InputRevenue(b)
    ensures InputSold(a + b) == InputSold(a) + InputSold(b)
  {
    if |b| == 0 {
      assert a + b == a;
    } else {
      var n := |b| - 1;
      InputSumsConcat(a, b[..n]);
      assert (a + b)[..|a + b| - 1] == a + b[..n];
    }
  }

  lemma SumsRemove(b: seq<ProductSale>, j: nat)
    requires j < |b|
    ensures InputRevenue(b) == InputRevenue(b[..j] + b[j + 1..]) + Revenue(b[j])
    ensures InputSold(b) == InputSold(b[..j] + b[j + 1..]) + b[j].sold_count
  {
    var x := b[j];
    var front, back, rest := b[..j], b[j..], b[j + 1..];
    assert b == front + back;
    assert back == [x] + rest;
    InputSumsConcat(front, back);
    InputSumsConcat([x], rest);
    InputSumsConcat(front, rest);
    InputSingle(x);
  }

  lemma InputSingle(x: ProductSale)
    ensures InputRevenue([x]) == Revenue(x) && InputSold([x]) == x.sold_count
  {
    assert [x][..0] == [];
  }

  lemma {:induction false} InputSumsPermutation(a: seq<ProductSale>, b: seq<ProductSale>)
    requires multiset(a) == multiset(b)
    ensures InputRevenue(a) == InputRevenue(b)
    ensures InputSold(a) == InputSold(b)
    decreases |a|
  {
    if |a| == 0 {
      assert |b| == |multiset(b)| == 0;
    } else {
      var n := |a| - 1;
      assert a[n] in multiset(b);
      var j :| 0 <= j < |b| && b[j] == a[n];
      MultisetRemove(a, b, j);
      InputSumsPermutation(a[..n], b[..j] + b[j + 1..]);
      SumsRemove(b, j);
    }
  }

  /** Reordering the input records changes at most the order of the
      aggregated products, never the totals over them. */
  lemma AggregateTotalsOrderIndependent(a: seq<ProductSale>, b: seq<ProductSale>)
    requires multiset(a) == multiset(b)
    ensures TotalRevenue(Aggregate(a)) == TotalRevenue(Aggregate(b))
    ensures TotalSold(Aggregate(a)) == TotalSold(Aggregate(b))
  {
    AggregateTotals(a);
    AggregateTotals(b);
    InputSumsPermutation(a, b);
  }

  lemma {:induction false} TotalsConcat(a: seq<AggregatedProduct>, b: seq<AggregatedProduct>)
    ensures TotalRevenue(a + b) == TotalRevenue(a) + TotalRevenue(b)
    ensures TotalSold(a + b) == TotalSold(a) + TotalSold(b)
  {
    if |b| == 0 {
      assert a + b == a;
    } else {
      var n := |b| - 1;
      TotalsConcat(a, b[..n]);
      assert (a + b)[..|a + b| - 1] == a + b[..n];
    }
  }

  lemma TotalsRemove(b: seq<AggregatedProduct>, j: nat)
    requires j < |b|
    ensures TotalRevenue(b) == TotalRevenue(b[..j] + b[j + 1..]) + b[j].total_revenue
    ensures TotalSold(b) == TotalSold(b[..j] + b[j + 1..]) + b[j].sold_count
  {
    var x := b[j];
    var front, back, rest := b[..j], b[j..], b[j + 1..];
    assert b == front + back;
    assert back == [x] + rest;
    TotalsConcat(front, back);
    TotalsConcat([x], rest);
    TotalsConcat(front, rest);
    TotalsSingle(x);
  }

  lemma TotalsSingle(x: AggregatedProduct)
    ensures TotalRevenue([x]) == x.total_revenue && TotalSold([x]) == x.sold_count
  {
    assert [x][..0] == [];
  }

  /** The totals depend only on which products are shown, not on their
      order. */
  lemma {:induction false} TotalsPermutation(a: seq<AggregatedProduct>, b: seq<AggregatedProduct>)
    requires multiset(a) == multiset(b)
    ensures TotalRevenue(a) == TotalRevenue(b)
    ensures TotalSold(a) == TotalSold(b)
    decreases |a|
  {
    if |a| == 0 {
      assert |b| == |multiset(b)| == 0;
    } else {
      var n := |a| - 1;
      assert a[n] in multiset(b);
      var j :| 0 <= j < |b| && b[j] == a[n];
      MultisetRemove(a, b, j);
      TotalsPermutation(a[..n], b[..j] + b[j + 1..]);
      TotalsRemove(b, j);
    }
  }

  /** Filtering never increases the number of units sold. */
  lemma {:induction false} FilteredSoldBounded(agg: seq<AggregatedProduct>, soldRange: Range, priceRange: Range)
    ensures TotalSold(Filter(agg, soldRange, priceRange)) <= TotalSold(agg)
  {
    if |agg| > 0 {
      var n := |agg| - 1;
      FilteredSoldBounded(agg[..n], soldRange, priceRange);
      var front := Filter(agg[..n], soldRange, priceRange);
      if Passes(agg[n], soldRange, priceRange) {
        var r := front + [agg[n]];
        assert r[..|r| - 1] == front;
      } else {
        assert Filter(agg, soldRange, priceRange) == front;
      }
    }
  }

  /** With non-negative revenues, filtering never increases the revenue. */
  lemma {:induction false} FilteredRevenueBounded(agg: seq<AggregatedProduct>, soldRange: Range, priceRange: Range)
    requires forall i :: 0 <= i < |agg| ==> agg[i].total_revenue >= 0.0
    ensures TotalRevenue(Filter(agg, soldRange, priceRange)) <= TotalRevenue(agg)
  {
    if |agg| > 0 {
      var n := |agg| - 1;
      FilteredRevenueBounded(agg[..n], soldRange, priceRange);
      var front := Filter(agg[..n], soldRange, priceRange);
      if Passes(agg[n], soldRange, priceRange) {
        var r := front + [agg[n]];
        assert r[..|r| - 1] == front;
      } else {
        assert Filter(agg, soldRange, priceRange) == front;
      }
    }
  }

  /** The product table sorts the filtered list by revenue in place while
      rendering; the totals computed from that list come out the same
      either way. */
  lemma DisplaySortKeepsTotals(shown: seq<AggregatedProduct>)
    ensures TotalRevenue(SortDesc(shown, ByRevenue)) == TotalRevenue(shown)
    ensures TotalSold(SortDesc(shown, ByRevenue)) == TotalSold(shown)
  {
    TotalsPermutation(SortDesc(shown, ByRevenue), shown);
  }
}
