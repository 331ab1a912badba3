/** Facts about sequences shared by the sums and the counts. */
module SeqFacts {

  /** The smaller of two lengths, as `.slice(0, K)` takes them. */
  function Min(a: nat, b: nat): nat
  {
    if a <= b then a else b
  }

  /** Taking the last element of `a` out of both sides of a permutation. */
  lemma MultisetRemove<T>(a: seq<T>, b: seq<T>, j: nat)
    requires |a| > 0 && j < |b| && b[j] == a[|a| - 1]
    requires multiset(a) == multiset(b)
    ensures multiset(a[..|a| - 1]) == multiset(b[..j] + b[j + 1..])
  {
    var x := b[j];
    var init, front, back := a[..|a| - 1], b[..j], b[j + 1..];
    assert a == init + [x];
    assert multiset(a) == multiset(init) + multiset{x};
    assert b == front + [x] + back;
    assert multiset(b) == multiset(front + back) + multiset{x};
    assert multiset(init) == multiset(a) - multiset{x};
    assert multiset(front + back) == multiset(b) - multiset{x};
  }

  /** A prefix of a permutation of `s` is drawn from `s`, and what it leaves
      of `s` is exactly the rest of the permutation. */
  lemma PrefixSubMultiset<T>(s: seq<T>, srt: seq<T>, n: nat)
    requires multiset(srt) == multiset(s) && n <= |srt|
    ensures multiset(srt[..n]) <= multiset(s)
    ensures multiset(s) - multiset(srt[..n]) == multiset(srt[n..])
    ensures forall p :: p in srt[..n] ==> p in s
  {
    var t, rest := srt[..n], srt[n..];
    assert srt == t + rest;
    assert multiset(s) == multiset(t) + multiset(rest);
    forall p | p in t ensures p in s {
      assert multiset(t)[p] > 0;
      assert multiset(s)[p] > 0;
    }
  }

  /** Two pieces of which at least one is empty may be put in either order. */
  lemma SwapAtMostOne<T>(a: seq<T>, b: seq<T>, w: seq<T>)
    requires a == [] || b == []
    ensures a + (b + w) == b + (a + w)
  {
    if a == [] {
      assert a + (b + w) == b + w == b + (a + w);
    } else {
      assert a + (b + w) == a + w == b + (a + w);
    }
  }
}
