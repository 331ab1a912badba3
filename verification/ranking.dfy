/** The sort-and-slice inside the presets: `[...agg].sort(desc by key)
    .slice(0, K)`, then `Math.min` / `Math.max` over one field of the
    slice. `Array.prototype.sort` is stable, so the sort is modelled as a
    stable insertion sort. The `Math.min` threshold is proved not to depend
    on how ties are ordered; which tied products enter the slice does
    depend on their input order. */
module Ranking {
  import opened Numbers
  import opened Types
  import opened SeqFacts

  /** The field a preset sorts by. */
  datatype SortKey = BySold | ByRevenue

  function Key(k: SortKey, p: AggregatedProduct): real
  {
    match k
    case BySold => p.sold_count as real
    case ByRevenue => p.total_revenue
  }

  predicate SortedDesc(s: seq<AggregatedProduct>, k: SortKey)
  {
    forall i, j :: 0 <= i < j < |s| ==> Key(k, s[i]) >= Key(k, s[j])
  }

  /** Insert `x` ahead of the first element whose key does not exceed its
      own; `x` came earlier in the input than everything in `s`, so it goes
      in front of equal keys, which keeps the sort stable. */
  function Insert(x: AggregatedProduct, s: seq<AggregatedProduct>, k: SortKey): (r: seq<AggregatedProduct>)
    requires SortedDesc(s, k)
    ensures |r| == |s| + 1
    ensures multiset(r) == multiset(s) + multiset{x}
    ensures SortedDesc(r, k)
    ensures r[0] == x || (|s| > 0 && r[0] == s[0])
  {
    if |s| == 0 || Key(k, s[0]) <= Key(k, x) then
      ConsSorted(x, s, k);
      [x] + s
    else
      var tail := s[1..];
      assert s == [s[0]] + tail;
      TailSorted(s, k);
      var rest := Insert(x, tail, k);
      assert Key(k, rest[0]) <= Key(k, s[0]) by {
        if rest[0] != x {
          assert rest[0] == tail[0] == s[1];
        }
      }
      ConsSorted(s[0], rest, k);
      assert multiset([s[0]] + rest) == multiset{s[0]} + multiset(rest);
      [s[0]] + rest
  }

  /** Putting a key no smaller than the head in front keeps the order. */
  lemma ConsSorted(x: AggregatedProduct, s: seq<AggregatedProduct>, k: SortKey)
    requires SortedDesc(s, k)
    requires |s| == 0 || Key(k, x) >= Key(k, s[0])
    ensures SortedDesc([x] + s, k)
  {
    var r := [x] + s;
    forall i, j | 0 <= i < j < |r| ensures Key(k, r[i]) >= Key(k, r[j]) {
      assert r[j] == s[j - 1];
      if i > 0 {
        assert r[i] == s[i - 1];
      }
    }
  }

  /** `[...s].sort((a, b) => key(b) - key(a))`: a permutation of `s` in
      descending key order. */
  function SortDesc(s: seq<AggregatedProduct>, k: SortKey): (r: seq<AggregatedProduct>)
    ensures |r| == |s|
    ensures multiset(r) == multiset(s)
    ensures SortedDesc(r, k)
  {
    if |s| == 0 then []
    else
      assert s == [s[0]] + s[1..];
      Insert(s[0], SortDesc(s[1..], k), k)
  }

  /** A sequence already in descending order, ties included, is a fixed
      point of the sort. */
  lemma {:induction false} SortDescSorted(s: seq<AggregatedProduct>, k: SortKey)
    requires SortedDesc(s, k)
    ensures SortDesc(s, k) == s
  {
    if |s| > 0 {
      var rest := s[1..];
      assert s == [s[0]] + rest;
      TailSorted(s, k);
      SortDescSorted(rest, k);
      assert SortDesc(s, k) == Insert(s[0], rest, k);
      assert |rest| == 0 || Key(k, rest[0]) <= Key(k, s[0]);
      assert Insert(s[0], rest, k) == [s[0]] + rest;
    }
  }

  /** The products of `s` whose key is `v`, in their order in `s`. */
  function WithKey(s: seq<AggregatedProduct>, k: SortKey, v: real): seq<AggregatedProduct>
  {
    if |s| == 0 then [] else (if Key(k, s[0]) == v then [s[0]] else []) + WithKey(s[1..], k, v)
  }

  /** Inserting `x` puts it ahead of every product with its key and leaves
      the order among the others alone. */
  lemma {:induction false} InsertWithKey(x: AggregatedProduct, t: seq<AggregatedProduct>, k: SortKey, v: real)
    requires SortedDesc(t, k)
    ensures WithKey(Insert(x, t, k), k, v) == (if Key(k, x) == v then [x] else []) + WithKey(t, k, v)
  {
    if |t| == 0 || Key(k, t[0]) <= Key(k, x) {
      assert Insert(x, t, k) == [x] + t;
      WithKeyCons(x, t, k, v);
    } else {
      TailSorted(t, k);
      InsertWithKey(x, t[1..], k, v);
      InsertBehindWithKey(x, t, k, v);
    }
  }

  /** The step of `InsertWithKey` where `x` goes behind the head. */
  lemma InsertBehindWithKey(x: AggregatedProduct, t: seq<AggregatedProduct>, k: SortKey, v: real)
    requires SortedDesc(t, k) && |t| > 0 && Key(k, t[0]) > Key(k, x)
    requires SortedDesc(t[1..], k)
    requires WithKey(Insert(x, t[1..], k), k, v) == (if Key(k, x) == v then [x] else []) + WithKey(t[1..], k, v)
    ensures WithKey(Insert(x, t, k), k, v) == (if Key(k, x) == v then [x] else []) + WithKey(t, k, v)
  {
    var tail := t[1..];
    var rest := Insert(x, tail, k);
    assert Insert(x, t, k) == [t[0]] + rest;
    WithKeyCons(t[0], rest, k, v);
    assert t == [t[0]] + tail;
    WithKeyCons(t[0], tail, k, v);
    var a: seq<AggregatedProduct> := if Key(k, t[0]) == v then [t[0]] else [];
    var b: seq<AggregatedProduct> := if Key(k, x) == v then [x] else [];
    SwapAtMostOne(a, b, WithKey(tail, k, v));
  }

  lemma WithKeyCons(x: AggregatedProduct, t: seq<AggregatedProduct>, k: SortKey, v: real)
    ensures WithKey([x] + t, k, v) == (if Key(k, x) == v then [x] else []) + WithKey(t, k, v)
  {
    assert ([x] + t)[1..] == t;
  }

  /** The sort is stable: for every key, the products with that key come
      out in the order they went in. */
  lemma {:induction false} SortDescStable(s: seq<AggregatedProduct>, k: SortKey, v: real)
    ensures WithKey(SortDesc(s, k), k, v) == WithKey(s, k, v)
  {
    if |s| > 0 {
      SortDescStable(s[1..], k, v);
      InsertWithKey(s[0], SortDesc(s[1..], k), k, v);
    }
  }

  lemma TailSorted(s: seq<AggregatedProduct>, k: SortKey)
    requires SortedDesc(s, k) && |s| > 0
    ensures SortedDesc(s[1..], k)
  {
    forall i, j | 0 <= i < j < |s| - 1 ensures Key(k, s[1..][i]) >= Key(k, s[1..][j]) {
      assert s[1..][i] == s[i + 1] && s[1..][j] == s[j + 1];
    }
  }

  /** `.slice(0, K)` of the sorted copy: the `min(K, |s|)` products ranked
      highest by `k`, taken from `s` without repetition. */
  function Top(s: seq<AggregatedProduct>, k: SortKey, K: nat): (t: seq<AggregatedProduct>)
    ensures |t| == Min(K, |s|)
    ensures SortedDesc(t, k)
    ensures multiset(t) <= multiset(s)
    ensures forall p :: p in t ==> p in s
  {
    var srt := SortDesc(s, k);
    var n := Min(K, |s|);
    FrontSorted(srt, k, n);
    PrefixSubMultiset(s, srt, n);
    srt[..n]
  }

  /** The slice holds the highest keys: no product of `s` left out of it
      ranks above any product in it. */
  lemma TopOutranksRest(s: seq<AggregatedProduct>, k: SortKey, K: nat)
    ensures forall p, q :: p in Top(s, k, K) && q in multiset(s) - multiset(Top(s, k, K)) ==> Key(k, p) >= Key(k, q)
  {
    var srt := SortDesc(s, k);
    var n := Min(K, |s|);
    var t := Top(s, k, K);
    assert t == srt[..n];
    PrefixSubMultiset(s, srt, n);
    FrontOutranksBack(srt, k, n);
    forall p, q | p in t && q in multiset(s) - multiset(t) ensures Key(k, p) >= Key(k, q) {
      assert q in srt[n..];
    }
  }

  lemma FrontSorted(srt: seq<AggregatedProduct>, k: SortKey, n: nat)
    requires SortedDesc(srt, k) && n <= |srt|
    ensures SortedDesc(srt[..n], k)
  {
    forall i, j | 0 <= i < j < n ensures Key(k, srt[..n][i]) >= Key(k, srt[..n][j]) {
      assert srt[..n][i] == srt[i] && srt[..n][j] == srt[j];
    }
  }

  lemma FrontOutranksBack(srt: seq<AggregatedProduct>, k: SortKey, n: nat)
    requires SortedDesc(srt, k) && n <= |srt|
    ensures forall p, q :: p in srt[..n] && q in srt[n..] ==> Key(k, p) >= Key(k, q)
  {
    forall p, q | p in srt[..n] && q in srt[n..] ensures Key(k, p) >= Key(k, q) {
      var i :| 0 <= i < n && srt[..n][i] == p;
      var j :| 0 <= j < |srt| - n && srt[n..][j] == q;
      assert srt[..n][i] == srt[i] && srt[n..][j] == srt[n + j];
    }
  }

  /** The smallest key of a non-empty sequence. */
  function MinOf(t: seq<AggregatedProduct>, k: SortKey): (m: real)
    requires |t| > 0
    ensures forall i :: 0 <= i < |t| ==> m <= Key(k, t[i])
    ensures exists i :: 0 <= i < |t| && m == Key(k, t[i])
  {
    if |t| == 1 then Key(k, t[0])
    else
      var m := MinOf(t[1..], k);
      assert forall i :: 1 <= i < |t| ==> t[i] == t[1..][i - 1];
      if Key(k, t[0]) <= m then Key(k, t[0]) else m
  }

  /** The largest key of a non-empty sequence. */
  function MaxOf(t: seq<AggregatedProduct>, k: SortKey): (m: real)
    requires |t| > 0
    ensures forall i :: 0 <= i < |t| ==> Key(k, t[i]) <= m
    ensures exists i :: 0 <= i < |t| && m == Key(k, t[i])
  {
    if |t| == 1 then Key(k, t[0])
    else
      var m := MaxOf(t[1..], k);
      assert forall i :: 1 <= i < |t| ==> t[i] == t[1..][i - 1];
      if Key(k, t[0]) >= m then Key(k, t[0]) else m
  }

  /** Every element's key lies between the extremes. */
  lemma KeyWithinExtremes(t: seq<AggregatedProduct>, k: SortKey)
    requires |t| > 0
    ensures forall p :: p in t ==> MinOf(t, k) <= Key(k, p) <= MaxOf(t, k)
  {
    forall p | p in t ensures MinOf(t, k) <= Key(k, p) <= MaxOf(t, k) {
      var i :| 0 <= i < |t| && t[i] == p;
      assert MinOf(t, k) <= Key(k, t[i]) <= MaxOf(t, k);
    }
  }

  /** `Math.min(...t.map(key))`: +Infinity for an empty list. */
  function MathMin(t: seq<AggregatedProduct>, k: SortKey): (r: Num)
    ensures |t| == 0 <==> r == PosInf
    ensures |t| > 0 ==> r == Fin(MinOf(t, k))
  {
    if |t| == 0 then PosInf else Fin(MinOf(t, k))
  }

  /** `Math.max(...t.map(key))`: -Infinity for an empty list. */
  function MathMax(t: seq<AggregatedProduct>, k: SortKey): (r: Num)
    ensures |t| == 0 <==> r == NegInf
    ensures |t| > 0 ==> r == Fin(MaxOf(t, k))
  {
    if |t| == 0 then NegInf else Fin(MaxOf(t, k))
  }

  // Counting products by key, to characterise a threshold without sorting.

  predicate Exceeds(k: SortKey, p: AggregatedProduct, m: real, strict: bool)
  {
    if strict then Key(k, p) > m else Key(k, p) >= m
  }

  /** How many products have key `> m` (strict) or `>= m` (not strict). */
  function Count(s: seq<AggregatedProduct>, k: SortKey, m: real, strict: bool): nat
  {
    if |s| == 0 then 0
    else Count(s[..|s| - 1], k, m, strict) + (if Exceeds(k, s[|s| - 1], m, strict) then 1 else 0)
  }

  /** `m` is the `n`-th largest key of `s`, counting duplicates: at least
      `n` products reach `m` and fewer than `n` exceed it. */
  ghost predicate IsNthLargest(s: seq<AggregatedProduct>, k: SortKey, n: nat, m: real)
  {
    Count(s, k, m, false) >= n && Count(s, k, m, true) < n
  }

  lemma {:induction false} CountConcat(a: seq<AggregatedProduct>, b: seq<AggregatedProduct>, k: SortKey, m: real, strict: bool)
    ensures Count(a + b, k, m, strict) == Count(a, k, m, strict) + Count(b, k, m, strict)
  {
    if |b| == 0 {
      assert a + b == a;
    } else {
      var n := |b| - 1;
      CountConcat(a, b[..n], k, m, strict);
      assert (a + b)[..|a + b| - 1] == a + b[..n];
    }
  }

  lemma {:induction false} CountAtMost(s: seq<AggregatedProduct>, k: SortKey, m: real, strict: bool)
    ensures Count(s, k, m, strict) <= |s|
  {
    if |s| > 0 {
      CountAtMost(s[..|s| - 1], k, m, strict);
    }
  }

  lemma {:induction false} CountAll(s: seq<AggregatedProduct>, k: SortKey, m: real, strict: bool)
    requires forall i :: 0 <= i < |s| ==> Exceeds(k, s[i], m, strict)
    ensures Count(s, k, m, strict) == |s|
  {
    if |s| > 0 {
      var n := |s| - 1;
      assert forall i :: 0 <= i < n ==> s[..n][i] == s[i];
      CountAll(s[..n], k, m, strict);
    }
  }

  lemma {:induction false} CountNone(s: seq<AggregatedProduct>, k: SortKey, m: real, strict: bool)
    requires forall i :: 0 <= i < |s| ==> !Exceeds(k, s[i], m, strict)
    ensures Count(s, k, m, strict) == 0
  {
    if |s| > 0 {
      var n := |s| - 1;
      assert forall i :: 0 <= i < n ==> s[..n][i] == s[i];
      CountNone(s[..n], k, m, strict);
    }
  }

  lemma {:induction false} CountPermutation(a: seq<AggregatedProduct>, b: seq<AggregatedProduct>, k: SortKey, m: real, strict: bool)
    requires multiset(a) == multiset(b)
    ensures Count(a, k, m, strict) == Count(b, k, m, strict)
    decreases |a|
  {
    if |a| == 0 {
      assert |b| == |multiset(b)| == 0;
    } else {
      var n := |a| - 1;
      assert a[n] in multiset(b);
      var j :| 0 <= j < |b| && b[j] == a[n];
      MultisetRemove(a, b, j);
      CountPermutation(a[..n], b[..j] + b[j + 1..], k, m, strict);
      assert b == b[..j] + ([b[j]] + b[j + 1..]);
      CountConcat(b[..j], [b[j]] + b[j + 1..], k, m, strict);
      CountConcat([b[j]], b[j + 1..], k, m, strict);
      CountConcat(b[..j], b[j + 1..], k, m, strict);
      assert [b[j]][..0] == [];
    }
  }

  /** A larger threshold is reached by no more products than strictly
      exceed a smaller one. */
  lemma {:induction false} CountMonotone(s: seq<AggregatedProduct>, k: SortKey, m1: real, m2: real)
    requires m1 < m2
    ensures Count(s, k, m2, false) <= Count(s, k, m1, true)
  {
    if |s| > 0 {
      CountMonotone(s[..|s| - 1], k, m1, m2);
    }
  }

  /** The `n`-th largest key is unique: it does not depend on any ordering. */
  lemma NthLargestUnique(s: seq<AggregatedProduct>, k: SortKey, n: nat, m1: real, m2: real)
    requires IsNthLargest(s, k, n, m1) && IsNthLargest(s, k, n, m2)
    ensures m1 == m2
  {
    if m1 < m2 {
      CountMonotone(s, k, m1, m2);
    } else if m2 < m1 {
      CountMonotone(s, k, m2, m1);
    }
  }

  /** In a descending sequence, the minimum of the first `n` keys is the key
      at position `n - 1`. */
  lemma SortedMin(srt: seq<AggregatedProduct>, k: SortKey, n: nat)
    requires SortedDesc(srt, k)
    requires 0 < n <= |srt|
    ensures MathMin(srt[..n], k) == Fin(Key(k, srt[n - 1]))
  {
    var t := srt[..n];
    assert t[n - 1] == srt[n - 1];
    var mn := MinOf(t, k);
    var i :| 0 <= i < n && mn == Key(k, t[i]);
    assert t[i] == srt[i];
  }

  /** In a descending sequence, the key at position `n - 1` is the `n`-th
      largest key. */
  lemma SortedNthLargest(srt: seq<AggregatedProduct>, k: SortKey, n: nat)
    requires SortedDesc(srt, k)
    requires 0 < n <= |srt|
    ensures IsNthLargest(srt, k, n, Key(k, srt[n - 1]))
  {
    SortedReach(srt, k, n);
    SortedExceed(srt, k, n);
  }

  lemma SortedReach(srt: seq<AggregatedProduct>, k: SortKey, n: nat)
    requires SortedDesc(srt, k)
    requires 0 < n <= |srt|
    ensures Count(srt, k, Key(k, srt[n - 1]), false) >= n
  {
    var m := Key(k, srt[n - 1]);
    var a, b := srt[..n], srt[n..];
    assert srt == a + b;
    CountConcat(a, b, k, m, false);
    assert forall i :: 0 <= i < n ==> a[i] == srt[i] && Exceeds(k, a[i], m, false);
    CountAll(a, k, m, false);
  }

  lemma SortedExceed(srt: seq<AggregatedProduct>, k: SortKey, n: nat)
    requires SortedDesc(srt, k)
    requires 0 < n <= |srt|
    ensures Count(srt, k, Key(k, srt[n - 1]), true) < n
  {
    var m := Key(k, srt[n - 1]);
    var a, b := srt[..n - 1], srt[n - 1..];
    assert srt == a + b;
    CountConcat(a, b, k, m, true);
    CountAtMost(a, k, m, true);
    forall i | 0 <= i < |b| ensures !Exceeds(k, b[i], m, true) {
      assert b[i] == srt[n - 1 + i];
      if i > 0 {
        assert Key(k, srt[n - 1]) >= Key(k, srt[n - 1 + i]);
      }
    }
    CountNone(b, k, m, true);
  }

  /** The `Math.min` over the top `K` by key is the `min(K, |s|)`-th largest
      key of `s`, and the top `K` holds every product whose key exceeds it. */
  lemma TopThreshold(s: seq<AggregatedProduct>, k: SortKey, K: nat)
    requires |s| > 0 && K > 0
    ensures MathMin(Top(s, k, K), k).Fin?
    ensures IsNthLargest(s, k, Min(K, |s|), MathMin(Top(s, k, K), k).value)
    ensures forall p :: p in s && Key(k, p) > MathMin(Top(s, k, K), k).value ==> p in Top(s, k, K)
  {
    var srt := SortDesc(s, k);
    var n := Min(K, |s|);
    var t := Top(s, k, K);
    assert t == srt[..n];
    SortedMin(srt, k, n);
    SortedNthLargest(srt, k, n);
    var m := Key(k, srt[n - 1]);
    CountPermutation(srt, s, k, m, false);
    CountPermutation(srt, s, k, m, true);
    forall p | p in s && Key(k, p) > m ensures p in t {
      assert p in multiset(srt);
      var j :| 0 <= j < |srt| && srt[j] == p;
      assert j < n;
      assert t[j] == p;
    }
  }

  /** Any descending arrangement of `s` yields the same `Math.min` over its
      first `K` elements: the threshold does not depend on tie order. */
  lemma TieOrderIrrelevant(s: seq<AggregatedProduct>, other: seq<AggregatedProduct>, k: SortKey, K: nat)
    requires multiset(other) == multiset(s)
    requires SortedDesc(other, k)
    requires |s| > 0 && K > 0
    ensures MathMin(other[..Min(K, |other|)], k) == MathMin(Top(s, k, K), k)
  {
    assert |other| == |multiset(other)| == |s|;
    var n := Min(K, |s|);
    SortedMin(other, k, n);
    SortedNthLargest(other, k, n);
    var m := Key(k, other[n - 1]);
    CountPermutation(other, s, k, m, false);
    CountPermutation(other, s, k, m, true);
    TopThreshold(s, k, K);
    NthLargestUnique(s, k, n, m, MathMin(Top(s, k, K), k).value);
  }
}
