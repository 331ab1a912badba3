/** The `aggregatedData` group-by of the dashboard: one pass over the sale
    records that keeps, per product name, the summed sold count, the summed
    revenue `avg_price * sold_count` and the number of records, in an
    insertion-ordered JavaScript `Map`, then turns every entry into an
    aggregated product whose price is the revenue-weighted average. */
module Aggregation {
  import opened Wrappers
  import opened Numbers
  import opened Types

  /** The accumulator stored under each name. `count` is kept by the
      dashboard but never read. */
  datatype Group = Group(name: string, sold_count: nat, total_price: real, count: nat)

  // The insertion-ordered map is a sequence of entries; its keys are the names.

  function KeysOf(groups: seq<Group>): set<string>
  {
    set i | 0 <= i < |groups| :: groups[i].name
  }

  predicate DistinctNames(groups: seq<Group>)
  {
    forall i, j :: 0 <= i < j < |groups| ==> groups[i].name != groups[j].name
  }

  /** Where `name` sits in the map, if it is a key. */
  function IndexOf(groups: seq<Group>, name: string): (r: Option<nat>)
    ensures r.None? <==> forall i :: 0 <= i < |groups| ==> groups[i].name != name
    ensures r.Some? ==> r.value < |groups| && groups[r.value].name == name
  {
    if |groups| == 0 then None
    else if groups[0].name == name then Some(0)
    else match IndexOf(groups[1..], name)
      case None => None
      case Some(i) => Some(i + 1)
  }

  /** `grouped.get(name) || { sold_count: 0, total_price: 0, count: 0 }`. */
  function Get(groups: seq<Group>, name: string): (g: Group)
    ensures g.name == name
    ensures name !in KeysOf(groups) ==> g == Group(name, 0, 0.0, 0)
    ensures forall i :: 0 <= i < |groups| && groups[i].name == name && DistinctNames(groups) ==> g == groups[i]
  {
    match IndexOf(groups, name)
    case Some(i) => groups[i]
    case None => Group(name, 0, 0.0, 0)
  }

  /** `grouped.set(g.name, g)`: an existing key is overwritten where it
      stands, a new key is appended at the end. */
  function Put(groups: seq<Group>, g: Group): (r: seq<Group>)
    ensures KeysOf(r) == KeysOf(groups) + {g.name}
    ensures |r| == |groups| + (if g.name in KeysOf(groups) then 0 else 1)
    ensures forall i :: 0 <= i < |groups| ==> r[i].name == groups[i].name
    ensures forall i :: 0 <= i < |groups| && groups[i].name != g.name ==> r[i] == groups[i]
    ensures exists i :: 0 <= i < |r| && r[i] == g
    ensures DistinctNames(groups) ==> DistinctNames(r)
    ensures DistinctNames(groups) ==> forall i :: 0 <= i < |groups| && groups[i].name == g.name ==> r[i] == g
    ensures IndexOf(groups, g.name).Some? ==> r == groups[IndexOf(groups, g.name).value := g]
    ensures IndexOf(groups, g.name).None? ==> r == groups + [g]
  {
    match IndexOf(groups, g.name)
    case Some(i) =>
      var r := groups[i := g];
      assert r[i] == g;
      assert KeysOf(r) == KeysOf(groups) + {g.name} by {
        forall n | n in KeysOf(groups) ensures n in KeysOf(r) {
          var j :| 0 <= j < |groups| && groups[j].name == n;
          assert r[j].name == n;
        }
      }
      r
    case None =>
      var r := groups + [g];
      assert r[|groups|] == g;
      assert KeysOf(r) == KeysOf(groups) + {g.name} by {
        forall n | n in KeysOf(groups) ensures n in KeysOf(r) {
          var j :| 0 <= j < |groups| && groups[j].name == n;
          assert r[j].name == n;
        }
      }
      r
  }

  /** The revenue one record contributes: its price times its sold count. */
  function Revenue(p: ProductSale): real
  {
    p.avg_price * (p.sold_count as real)
  }

  /** The body of `data.forEach`: fold one sale record into the map. */
  function Step(groups: seq<Group>, p: ProductSale): seq<Group>
  {
    var e := Get(groups, p.name);
    Put(groups, Group(p.name, e.sold_count + p.sold_count,
                      e.total_price + Revenue(p), e.count + 1))
  }

  /** The map after `data.forEach` has visited every record, left to right. */
  function GroupBy(data: seq<ProductSale>): seq<Group>
  {
    if |data| == 0 then [] else Step(GroupBy(data[..|data| - 1]), data[|data| - 1])
  }

  /** One map entry as an aggregated product: the weighted average price is
      the summed revenue over the summed sold count. */
  function ToProduct(g: Group): AggregatedProduct
  {
    AggregatedProduct(g.name, g.sold_count, Div(g.total_price, g.sold_count as real), g.total_price)
  }

  // Reference definitions, stated per name directly over the input records.

  /** Every name that occurs in the input. */
  function NamesOf(data: seq<ProductSale>): set<string>
  {
    set i | 0 <= i < |data| :: data[i].name
  }

  /** Sum of `sold_count` over the records named `n`. */
  function SoldOf(data: seq<ProductSale>, n: string): nat
  {
    if |data| == 0 then 0
    else SoldOf(data[..|data| - 1], n) + (if data[|data| - 1].name == n then data[|data| - 1].sold_count else 0)
  }

  /** Sum of `avg_price * sold_count` over the records named `n`. */
  function RevenueOf(data: seq<ProductSale>, n: string): real
  {
    if |data| == 0 then 0.0
    else
      var p := data[|data| - 1];
      RevenueOf(data[..|data| - 1], n) + (if p.name == n then Revenue(p) else 0.0)
  }

  /** Number of records named `n`. */
  function CountOf(data: seq<ProductSale>, n: string): nat
  {
    if |data| == 0 then 0
    else CountOf(data[..|data| - 1], n) + (if data[|data| - 1].name == n then 1 else 0)
  }

  /** Index of the first record named `n`, or `|data|` when there is none. */
  function FirstIndex(data: seq<ProductSale>, n: string): (r: nat)
    ensures r <= |data|
    ensures forall b :: 0 <= b < r ==> data[b].name != n
    ensures r < |data| ==> data[r].name == n
    ensures r < |data| <==> n in NamesOf(data)
  {
    if |data| == 0 then 0
    else if data[0].name == n then 0
    else
      var r := 1 + FirstIndex(data[1..], n);
      assert forall b :: 1 <= b < r ==> data[b] == data[1..][b - 1];
      r
  }

  /** The map built by the fold is exactly the per-name rollup of the
      input: one entry per distinct name, ordered by first occurrence, each
      holding the sums over that name's records. */
  ghost predicate Faithful(groups: seq<Group>, data: seq<ProductSale>)
  {
    && DistinctNames(groups)
    && KeysOf(groups) == NamesOf(data)
    && (forall i :: 0 <= i < |groups| ==>
          && groups[i].sold_count == SoldOf(data, groups[i].name)
          && groups[i].total_price == RevenueOf(data, groups[i].name)
          && groups[i].count == CountOf(data, groups[i].name))
    && (forall i, j :: 0 <= i < j < |groups| ==> FirstIndex(data, groups[i].name) < FirstIndex(data, groups[j].name))
  }

  lemma NamesSnoc(d: seq<ProductSale>, p: ProductSale)
    ensures NamesOf(d + [p]) == NamesOf(d) + {p.name}
  {
    var data := d + [p];
    assert data[|d|].name == p.name;
    forall n | n in NamesOf(d) ensures n in NamesOf(data) {
      var j :| 0 <= j < |d| && d[j].name == n;
      assert data[j].name == n;
    }
    forall n | n in NamesOf(data) ensures n in NamesOf(d) + {p.name} {
      var j :| 0 <= j < |data| && data[j].name == n;
      if j < |d| { assert d[j].name == n; }
    }
  }

  lemma {:induction false} AbsentSums(d: seq<ProductSale>, n: string)
    requires n !in NamesOf(d)
    ensures SoldOf(d, n) == 0 && RevenueOf(d, n) == 0.0 && CountOf(d, n) == 0
  {
    if |d| > 0 {
      var d' := d[..|d| - 1];
      assert d == d' + [d[|d| - 1]];
      NamesSnoc(d', d[|d| - 1]);
      AbsentSums(d', n);
    }
  }

  lemma FirstIndexSnoc(d: seq<ProductSale>, p: ProductSale, n: string)
    ensures n in NamesOf(d) ==> FirstIndex(d + [p], n) == FirstIndex(d, n)
    ensures n !in NamesOf(d) && n == p.name ==> FirstIndex(d + [p], n) == |d|
  {
    var data := d + [p];
    var a := FirstIndex(data, n);
    var b := FirstIndex(d, n);
    if n in NamesOf(d) {
      assert data[b] == d[b];
    } else if n == p.name {
      NamesSnoc(d, p);
    }
  }

  /** The reference sums grow by one record at a time. */
  lemma SumsSnoc(d: seq<ProductSale>, p: ProductSale, n: string)
    ensures SoldOf(d + [p], n) == SoldOf(d, n) + (if p.name == n then p.sold_count else 0)
    ensures RevenueOf(d + [p], n) == RevenueOf(d, n) + (if p.name == n then Revenue(p) else 0.0)
    ensures CountOf(d + [p], n) == CountOf(d, n) + (if p.name == n then 1 else 0)
  {
    assert (d + [p])[..|d|] == d;
  }

  /** A record whose name is already a key updates that key's entry where it stands. */
  lemma StepExisting(d: seq<ProductSale>, gs: seq<Group>, p: ProductSale)
    requires Faithful(gs, d)
    requires p.name in KeysOf(gs)
    ensures Faithful(Step(gs, p), d + [p])
  {
    var data := d + [p];
    var r := Step(gs, p);
    StepExistingEntries(d, gs, p);
    NamesSnoc(d, p);
    forall i, j | 0 <= i < j < |r|
      ensures FirstIndex(data, r[i].name) < FirstIndex(data, r[j].name)
    {
      assert gs[i].name in KeysOf(gs) && gs[j].name in KeysOf(gs);
      FirstIndexSnoc(d, p, gs[i].name);
      FirstIndexSnoc(d, p, gs[j].name);
    }
  }

  lemma StepExistingEntries(d: seq<ProductSale>, gs: seq<Group>, p: ProductSale)
    requires DistinctNames(gs)
    requires forall i :: 0 <= i < |gs| ==>
      && gs[i].sold_count == SoldOf(d, gs[i].name)
      && gs[i].total_price == RevenueOf(d, gs[i].name)
      && gs[i].count == CountOf(d, gs[i].name)
    requires p.name in KeysOf(gs)
    ensures var r := Step(gs, p);
      && |r| == |gs|
      && (forall i :: 0 <= i < |r| ==>
            && r[i].name == gs[i].name
            && r[i].sold_count == SoldOf(d + [p], r[i].name)
            && r[i].total_price == RevenueOf(d + [p], r[i].name)
            && r[i].count == CountOf(d + [p], r[i].name))
  {
    var k :| 0 <= k < |gs| && gs[k].name == p.name;
    var e := gs[k];
    var g := Group(p.name, e.sold_count + p.sold_count, e.total_price + Revenue(p), e.count + 1);
    StepReplaces(gs, p, k);
    var r := gs[k := g];
    forall i | 0 <= i < |r|
      ensures r[i].name == gs[i].name
      ensures r[i].sold_count == SoldOf(d + [p], r[i].name)
      ensures r[i].total_price == RevenueOf(d + [p], r[i].name)
      ensures r[i].count == CountOf(d + [p], r[i].name)
    {
      if i != k {
        assert gs[i].name != p.name;
      }
      EntrySnoc(d, p, gs[i], r[i]);
    }
  }

  /** An entry holding a name's sums over `d` holds them over `d + [p]`
      once `p` is folded in when, and only when, it carries that name. */
  lemma EntrySnoc(d: seq<ProductSale>, p: ProductSale, e: Group, e': Group)
    requires e.sold_count == SoldOf(d, e.name) && e.total_price == RevenueOf(d, e.name)
    requires e.count == CountOf(d, e.name)
    requires e' == if e.name == p.name
                   then Group(p.name, e.sold_count + p.sold_count, e.total_price + Revenue(p), e.count + 1)
                   else e
    ensures e'.name == e.name
    ensures e'.sold_count == SoldOf(d + [p], e.name) && e'.total_price == RevenueOf(d + [p], e.name)
    ensures e'.count == CountOf(d + [p], e.name)
  {
    SumsSnoc(d, p, e.name);
  }

  /** The map after a record whose name is the key at position `k`: that
      entry, and only that entry, takes the record's counts. */
  lemma StepReplaces(gs: seq<Group>, p: ProductSale, k: nat)
    requires DistinctNames(gs)
    requires k < |gs| && gs[k].name == p.name
    ensures Step(gs, p) == gs[k := Group(p.name, gs[k].sold_count + p.sold_count,
                                         gs[k].total_price + Revenue(p), gs[k].count + 1)]
  {
    var e := gs[k];
    assert Get(gs, p.name) == e;
    var g := Group(p.name, e.sold_count + p.sold_count, e.total_price + Revenue(p), e.count + 1);
    var r := Put(gs, g);
    assert |r| == |gs|;
    assert r[k] == g;
    assert forall j :: 0 <= j < |gs| && j != k ==> r[j] == gs[j];
    assert r == gs[k := g];
  }

  /** A record with a new name appends an entry holding that record alone. */
  lemma StepNew(d: seq<ProductSale>, gs: seq<Group>, p: ProductSale)
    requires Faithful(gs, d)
    requires p.name !in KeysOf(gs)
    ensures Faithful(Step(gs, p), d + [p])
  {
    var data := d + [p];
    var g := Group(p.name, p.sold_count, 0.0 + Revenue(p), 1);
    var r := Step(gs, p);
    StepAppends(gs, p);
    NamesSnoc(d, p);
    AbsentSums(d, p.name);
    SumsSnoc(d, p, p.name);
    FirstIndexSnoc(d, p, p.name);
    forall i | 0 <= i < |r|
      ensures r[i].sold_count == SoldOf(data, r[i].name)
      ensures r[i].total_price == RevenueOf(data, r[i].name)
      ensures r[i].count == CountOf(data, r[i].name)
      ensures FirstIndex(data, r[i].name) <= |d|
      ensures i < |gs| ==> FirstIndex(data, r[i].name) == FirstIndex(d, gs[i].name) < |d|
    {
      if i < |gs| {
        assert r[i] == gs[i] && gs[i].name in KeysOf(gs);
        SumsSnoc(d, p, gs[i].name);
        FirstIndexSnoc(d, p, gs[i].name);
      } else {
        assert r[i] == g;
      }
    }
    forall i, j | 0 <= i < j < |r| ensures FirstIndex(data, r[i].name) < FirstIndex(data, r[j].name) {
      if j == |gs| {
        assert r[j] == g;
      }
    }
  }

  /** The map after a record with a new name: the old entries, then one
      entry for that record. */
  lemma StepAppends(gs: seq<Group>, p: ProductSale)
    requires DistinctNames(gs)
    requires p.name !in KeysOf(gs)
    ensures Step(gs, p) == gs + [Group(p.name, p.sold_count, 0.0 + Revenue(p), 1)]
  {
    var g := Group(p.name, p.sold_count, 0.0 + Revenue(p), 1);
    assert Get(gs, p.name) == Group(p.name, 0, 0.0, 0);
    var r := Put(gs, g);
    var k :| 0 <= k < |r| && r[k] == g;
    assert k == |gs| by {
      assert forall j :: 0 <= j < |gs| ==> r[j].name == gs[j].name && gs[j].name in KeysOf(gs);
    }
    assert r == gs + [g];
  }

  lemma {:induction false} GroupByFaithful(data: seq<ProductSale>)
    ensures Faithful(GroupBy(data), data)
  {
    if |data| > 0 {
      var d := data[..|data| - 1];
      var p := data[|data| - 1];
      assert data == d + [p];
      GroupByFaithful(d);
      var gs := GroupBy(d);
      if p.name in KeysOf(gs) {
        StepExisting(d, gs, p);
      } else {
        StepNew(d, gs, p);
      }
    }
  }

  /** Sold counts are non-negative, so a name whose sold counts sum to zero
      has only zero-count records and hence zero revenue. */
  lemma {:induction false} ZeroSoldZeroRevenue(data: seq<ProductSale>, n: string)
    requires SoldOf(data, n) == 0
    ensures RevenueOf(data, n) == 0.0
  {
    if |data| > 0 {
      ZeroSoldZeroRevenue(data[..|data| - 1], n);
    }
  }

  /** One map entry holding a name's sums becomes that name's product. */
  lemma ProductEntry(data: seq<ProductSale>, g: Group)
    requires g.sold_count == SoldOf(data, g.name) && g.total_price == RevenueOf(data, g.name)
    ensures var q := ToProduct(g);
      && q.name == g.name
      && q.sold_count == SoldOf(data, g.name)
      && q.total_revenue == RevenueOf(data, g.name)
      && (q.sold_count > 0 ==> q.avg_price == Fin(q.total_revenue / (q.sold_count as real)))
      && (q.sold_count == 0 ==> q.avg_price == NaN)
  {
    if g.sold_count == 0 {
      ZeroSoldZeroRevenue(data, g.name);
    }
  }

  lemma ProductsFaithful(data: seq<ProductSale>, gs: seq<Group>, r: seq<AggregatedProduct>)
    requires Faithful(gs, data)
    requires |r| == |gs| && forall i :: 0 <= i < |gs| ==> r[i] == ToProduct(gs[i])
    ensures forall i, j :: 0 <= i < j < |r| ==> r[i].name != r[j].name
    ensures forall i :: 0 <= i < |r| ==> r[i].name in NamesOf(data)
    ensures forall n :: n in NamesOf(data) ==> exists i :: 0 <= i < |r| && r[i].name == n
    ensures forall i, j :: 0 <= i < j < |r| ==> FirstIndex(data, r[i].name) < FirstIndex(data, r[j].name)
    ensures forall i :: 0 <= i < |r| ==> r[i].sold_count == SoldOf(data, r[i].name)
    ensures forall i :: 0 <= i < |r| ==> r[i].total_revenue == RevenueOf(data, r[i].name)
    ensures forall i :: 0 <= i < |r| && r[i].sold_count > 0 ==>
              r[i].avg_price == Fin(r[i].total_revenue / (r[i].sold_count as real))
    ensures forall i :: 0 <= i < |r| && r[i].sold_count == 0 ==> r[i].avg_price == NaN
  {
    forall i | 0 <= i < |r|
      ensures r[i].name == gs[i].name && r[i].name in NamesOf(data)
      ensures r[i].sold_count == SoldOf(data, r[i].name)
      ensures r[i].total_revenue == RevenueOf(data, r[i].name)
      ensures r[i].sold_count > 0 ==> r[i].avg_price == Fin(r[i].total_revenue / (r[i].sold_count as real))
      ensures r[i].sold_count == 0 ==> r[i].avg_price == NaN
    {
      assert gs[i].name in KeysOf(gs);
      ProductEntry(data, gs[i]);
    }
    forall n | n in NamesOf(data) ensures exists i :: 0 <= i < |r| && r[i].name == n {
      assert n in KeysOf(gs);
      var i :| 0 <= i < |gs| && gs[i].name == n;
      assert r[i].name == n;
    }
  }

  /** The aggregated products: one per distinct input name, in order of each
      name's first occurrence, with that name's summed sold count and
      revenue, and the weighted average price (NaN exactly when the summed
      sold count is zero). */
  function Aggregate(data: seq<ProductSale>): (r: seq<AggregatedProduct>)
    ensures forall i, j :: 0 <= i < j < |r| ==> r[i].name != r[j].name
    ensures forall i :: 0 <= i < |r| ==> r[i].name in NamesOf(data)
    ensures forall n :: n in NamesOf(data) ==> exists i :: 0 <= i < |r| && r[i].name == n
    ensures forall i, j :: 0 <= i < j < |r| ==> FirstIndex(data, r[i].name) < FirstIndex(data, r[j].name)
    ensures forall i :: 0 <= i < |r| ==> r[i].sold_count == SoldOf(data, r[i].name)
    ensures forall i :: 0 <= i < |r| ==> r[i].total_revenue == RevenueOf(data, r[i].name)
    ensures forall i :: 0 <= i < |r| && r[i].sold_count > 0 ==>
              r[i].avg_price == Fin(r[i].total_revenue / (r[i].sold_count as real))
    ensures forall i :: 0 <= i < |r| && r[i].sold_count == 0 ==> r[i].avg_price == NaN
  {
    var gs := GroupBy(data);
    GroupByFaithful(data);
    var r := seq(|gs|, i requires 0 <= i < |gs| => ToProduct(gs[i]));
    ProductsFaithful(data, gs, r);
    r
  }
}
