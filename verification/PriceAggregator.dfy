/**
 The medians of the price aggregator (oracle/src/services/price-aggregator.ts), with real weights.
 */
module PriceAggregator {
  import opened Arithmetic
  import opened Options

  datatype Price = Price(price: int, source: string)

  datatype Provider = Provider(name: string, weight: real)

  const DEFAULT_WEIGHT: real := 0.1

  /** The weight of the first provider with that name, or the default. */
  function WeightOf(providers: seq<Provider>, source: string): real {
    if providers == [] then DEFAULT_WEIGHT
    else if providers[0].name == source then providers[0].weight
    else WeightOf(providers[1..], source)
  }

  // ---------------------------------------------------------------------------
  // Sorting by price
  // ---------------------------------------------------------------------------

  ghost predicate Ascending(ps: seq<Price>) {
    forall i, j | 0 <= i < j < |ps| :: ps[i].price <= ps[j].price
  }

  function Insert(p: Price, sorted: seq<Price>): seq<Price> {
    if sorted == [] || p.price < sorted[0].price then [p] + sorted
    else [sorted[0]] + Insert(p, sorted[1..])
  }

  /** The stable sort of the library call `[...prices].sort(...)`. */
  function SortByPrice(ps: seq<Price>): seq<Price> {
    if ps == [] then [] else Insert(ps[|ps| - 1], SortByPrice(ps[..|ps| - 1]))
  }

  lemma {:induction false} InsertKeeps(p: Price, sorted: seq<Price>)
    requires Ascending(sorted)
    ensures Ascending(Insert(p, sorted)) && multiset(Insert(p, sorted)) == multiset(sorted) + multiset{p}
  {
    if sorted == [] || p.price < sorted[0].price {
    } else {
      InsertKeeps(p, sorted[1..]);
      PrependKeeps(sorted[0], sorted[1..], p, Insert(p, sorted[1..]));
      assert sorted == [sorted[0]] + sorted[1..];
    }
  }

  lemma PrependKeeps(first: Price, rest: seq<Price>, p: Price, rest': seq<Price>)
    requires Ascending(rest') && multiset(rest') == multiset(rest) + multiset{p}
    requires first.price <= p.price && forall q | q in rest :: first.price <= q.price
    ensures Ascending([first] + rest') && multiset([first] + rest') == multiset([first] + rest) + multiset{p}
  {
    forall i | 0 <= i < |rest'|
      ensures first.price <= rest'[i].price
    {
      assert rest'[i] in multiset(rest');
    }
  }

  lemma {:induction false} SortIsSorted(ps: seq<Price>)
    ensures Ascending(SortByPrice(ps)) && multiset(SortByPrice(ps)) == multiset(ps)
    ensures |SortByPrice(ps)| == |ps|
  {
    if ps != [] {
      var front, last := ps[..|ps| - 1], ps[|ps| - 1];
      assert ps == front + [last];
      SortIsSorted(front);
      InsertKeeps(last, SortByPrice(front));
    }
    SameSize(SortByPrice(ps), ps);
  }

  lemma SameSize(a: seq<Price>, b: seq<Price>)
    requires multiset(a) == multiset(b)
    ensures |a| == |b|
  {
    assert |multiset(a)| == |a| && |multiset(b)| == |b|;
  }

  // ---------------------------------------------------------------------------
  // What the weighted median is
  // ---------------------------------------------------------------------------

  ghost predicate NonNegativeWeights(providers: seq<Provider>) {
    forall p | p in providers :: p.weight >= 0.0
  }

  /** The weight of the prices in [lo, hi]; `None` leaves that side open. */
  ghost function WeightWithin(providers: seq<Provider>, ps: seq<Price>, lo: Option<int>, hi: Option<int>): real {
    if ps == [] then 0.0
    else
      WeightWithin(providers, ps[..|ps| - 1], lo, hi) +
      if Within(ps[|ps| - 1].price, lo, hi) then WeightOf(providers, ps[|ps| - 1].source) else 0.0
  }

  predicate Within(price: int, lo: Option<int>, hi: Option<int>) {
    (lo.Some? ==> lo.value <= price) && (hi.Some? ==> price <= hi.value)
  }

  ghost function TotalWeight(providers: seq<Provider>, ps: seq<Price>): real {
    WeightWithin(providers, ps, None, None)
  }

  /** The weight of all prices up to `p`. */
  ghost function WeightUpTo(providers: seq<Provider>, ps: seq<Price>, p: int): real {
    WeightWithin(providers, ps, None, Some(p))
  }

  /** `m` is the least quoted price up to which at least half of the weight lies. */
  ghost predicate IsWeightedMedian(providers: seq<Provider>, ps: seq<Price>, m: int) {
    && (exists q :: q in ps && q.price == m)
    && WeightUpTo(providers, ps, m) >= TotalWeight(providers, ps) / 2.0
    && forall q | q in ps && q.price < m :: WeightUpTo(providers, ps, q.price) < TotalWeight(providers, ps) / 2.0
  }

  lemma {:induction false} WeightIsNonNegative(providers: seq<Provider>, source: string)
    requires NonNegativeWeights(providers)
    ensures WeightOf(providers, source) >= 0.0
  {
    if providers != [] { WeightIsNonNegative(providers[1..], source); }
  }

  /** A wider range weighs no less. */
  lemma {:induction false} WeightMonotone(providers: seq<Provider>, ps: seq<Price>,
                                          lo: Option<int>, hi: Option<int>, lo': Option<int>, hi': Option<int>)
    requires NonNegativeWeights(providers)
    requires forall q | q in ps && Within(q.price, lo, hi) :: Within(q.price, lo', hi')
    ensures 0.0 <= WeightWithin(providers, ps, lo, hi) <= WeightWithin(providers, ps, lo', hi')
  {
    if ps != [] {
      WeightMonotone(providers, ps[..|ps| - 1], lo, hi, lo', hi');
      WeightIsNonNegative(providers, ps[|ps| - 1].source);
    }
  }

  lemma {:induction false} WeightAppend(providers: seq<Provider>, a: seq<Price>, b: seq<Price>, lo: Option<int>,
                                        hi: Option<int>)
    ensures WeightWithin(providers, a + b, lo, hi) ==
        WeightWithin(providers, a, lo, hi) + WeightWithin(providers, b, lo, hi)
  {
    if b == [] {
      assert a + b == a;
    } else {
      assert (a + b)[..|a + b| - 1] == a + b[..|b| - 1];
      WeightAppend(providers, a, b[..|b| - 1], lo, hi);
    }
  }

  /** Where the last quote of `a` stands in a rearrangement `b` of it. */
  lemma DropLast(a: seq<Price>, b: seq<Price>) returns (i: nat)
    requires a != [] && multiset(a) == multiset(b)
    ensures i < |b| && b[i] == a[|a| - 1]
    ensures multiset(a[..|a| - 1]) == multiset(b[..i] + b[i + 1..])
  {
    var x := a[|a| - 1];
    assert x in multiset(b);
    i :| 0 <= i < |b| && b[i] == x;
    WithoutAt(a, |a| - 1);
    assert a[..|a| - 1] + a[|a|..] == a[..|a| - 1];
    WithoutAt(b, i);
  }

  lemma WithoutAt(ps: seq<Price>, i: nat)
    requires i < |ps|
    ensures multiset(ps[..i] + ps[i + 1..]) == multiset(ps) - multiset{ps[i]}
  {
    assert ps == ps[..i] + ([ps[i]] + ps[i + 1..]);
    assert multiset(ps) == multiset(ps[..i]) + (multiset{ps[i]} + multiset(ps[i + 1..]));
  }

  /** Weights do not depend on the order of the quotes. */
  lemma {:induction false} WeightPermutes(providers: seq<Provider>, a: seq<Price>, b: seq<Price>, lo: Option<int>,
                                          hi: Option<int>)
    requires multiset(a) == multiset(b)
    ensures WeightWithin(providers, a, lo, hi) == WeightWithin(providers, b, lo, hi)
    decreases |a|
  {
    SameSize(a, b);
    if a != [] {
      var x := a[|a| - 1];
      var i := DropLast(a, b);
      WeightPermutes(providers, a[..|a| - 1], b[..i] + b[i + 1..], lo, hi);
      assert b == b[..i] + [x] + b[i + 1..] && a == a[..|a| - 1] + [x];
      WeightAppend(providers, b[..i], b[i + 1..], lo, hi);
      WeightAppend(providers, b[..i] + [x], b[i + 1..], lo, hi);
      WeightAppend(providers, b[..i], [x], lo, hi);
      WeightAppend(providers, a[..|a| - 1], [x], lo, hi);
    }
  }

  // ---------------------------------------------------------------------------
  // The program
  // ---------------------------------------------------------------------------

  lemma Prefix(providers: seq<Provider>, ps: seq<Price>, i: nat)
    requires i < |ps|
    ensures TotalWeight(providers, ps[..i + 1]) == TotalWeight(providers, ps[..i]) + WeightOf(providers, ps[i].source)
  {
    assert ps[..i + 1][..i] == ps[..i];
  }

  /** Throws (None) on an empty list; otherwise the price at which the running weight reaches half the total. */
  method WeightedMedian(providers: seq<Provider>, prices: seq<Price>) returns (r: Option<int>)
    ensures prices == [] <==> r == None
    ensures r.Some? && NonNegativeWeights(providers) ==> IsWeightedMedian(providers, prices, r.value)
  {
    if prices == [] {
      return None;
    }
    var sorted := SortByPrice(prices);
    SortIsSorted(prices);
    var totalWeight := 0.0;
    for i := 0 to |sorted|
      invariant totalWeight == TotalWeight(providers, sorted[..i])
    {
      Prefix(providers, sorted, i);
      totalWeight := totalWeight + WeightOf(providers, sorted[i].source);
    }
    assert sorted[..|sorted|] == sorted;
    var halfWeight := totalWeight / 2.0;
    var cumWeight := 0.0;
    for i := 0 to |sorted|
      invariant cumWeight == TotalWeight(providers, sorted[..i])
      invariant i > 0 ==> cumWeight < halfWeight
    {
      Prefix(providers, sorted, i);
      cumWeight := cumWeight + WeightOf(providers, sorted[i].source);
      if cumWeight >= halfWeight {
        if NonNegativeWeights(providers) {
          FirstHalfIsMedian(providers, prices, sorted, i);
        }
        return Some(sorted[i].price);
      }
    }
    if NonNegativeWeights(providers) {
      WeightMonotone(providers, sorted, None, None, None, None);
      assert false;
    }
    return Some(sorted[|sorted| - 1].price);
  }

  /** In sorted order, the quote at which the running weight first reaches half the total is the weighted median. */
  lemma FirstHalfIsMedian(providers: seq<Provider>, ps: seq<Price>, sorted: seq<Price>, i: nat)
    requires NonNegativeWeights(providers)
    requires Ascending(sorted) && multiset(sorted) == multiset(ps) && i < |sorted|
    requires TotalWeight(providers, sorted[..i + 1]) >= TotalWeight(providers, sorted) / 2.0
    requires i > 0 ==> TotalWeight(providers, sorted[..i]) < TotalWeight(providers, sorted) / 2.0
    ensures IsWeightedMedian(providers, ps, sorted[i].price)
  {
    var m := sorted[i].price;
    WeightPermutes(providers, ps, sorted, None, None);
    WeightPermutes(providers, ps, sorted, None, Some(m));
    assert sorted[i] in multiset(ps);
    AtLeastPrefix(providers, sorted, i);
    forall q | q in ps && q.price < m
      ensures WeightUpTo(providers, ps, q.price) < TotalWeight(providers, ps) / 2.0
    {
      assert q in multiset(sorted);
      var j :| 0 <= j < |sorted| && sorted[j] == q;
      assert j < i;
      WeightPermutes(providers, ps, sorted, None, Some(q.price));
      AtMostPrefix(providers, sorted, i, q.price);
    }
  }

  lemma AtLeastPrefix(providers: seq<Provider>, sorted: seq<Price>, i: nat)
    requires NonNegativeWeights(providers) && Ascending(sorted) && i < |sorted|
    ensures WeightUpTo(providers, sorted, sorted[i].price) >= TotalWeight(providers, sorted[..i + 1])
  {
    var a, b := sorted[..i + 1], sorted[i + 1..];
    assert sorted == a + b;
    WeightAppend(providers, a, b, None, Some(sorted[i].price));
    WeightMonotone(providers, a, None, None, None, Some(sorted[i].price));
    WeightMonotone(providers, b, None, Some(sorted[i].price), None, None);
  }

  lemma AtMostPrefix(providers: seq<Provider>, sorted: seq<Price>, i: nat, p: int)
    requires NonNegativeWeights(providers) && Ascending(sorted) && i < |sorted| && p < sorted[i].price
    ensures WeightUpTo(providers, sorted, p) <= TotalWeight(providers, sorted[..i])
  {
    var a, b := sorted[..i], sorted[i..];
    assert sorted == a + b;
    WeightAppend(providers, a, b, None, Some(p));
    WeightMonotone(providers, a, None, Some(p), None, None);
    NothingWithin(providers, b, p);
  }

  lemma {:induction false} NothingWithin(providers: seq<Provider>, ps: seq<Price>, p: int)
    requires forall q | q in ps :: q.price > p
    ensures WeightUpTo(providers, ps, p) == 0.0
  {
    if ps != [] { NothingWithin(providers, ps[..|ps| - 1], p); }
  }

  /** The aggregated price: a single quote is passed through, several go to the configured median. */
  method AggregatePrice(providers: seq<Provider>, useWeightedMedian: bool, prices: seq<Price>) returns (r: Option<int>)
    ensures prices == [] <==> r == None
    ensures r.Some? && useWeightedMedian && NonNegativeWeights(providers) ==>
        IsWeightedMedian(providers, prices, r.value)
    ensures !useWeightedMedian ==> r == SimpleMedian(prices)
  {
    if |prices| == 1 {
      assert prices == [prices[0]];
      OneQuote(providers, prices);
      return Some(prices[0].price);
    }
    if useWeightedMedian {
      r := WeightedMedian(providers, prices);
    } else {
      SortIsSorted(prices);
      r := SimpleMedian(prices);
    }
  }

  lemma OneQuote(providers: seq<Provider>, ps: seq<Price>)
    requires |ps| == 1
    ensures NonNegativeWeights(providers) ==> IsWeightedMedian(providers, ps, ps[0].price)
    ensures SimpleMedian(ps) == Some(ps[0].price)
  {
    if NonNegativeWeights(providers) { WeightIsNonNegative(providers, ps[0].source); }
    assert ps[0] in ps && ps[..|ps| - 1] == [];
    assert WeightWithin(providers, ps[..|ps| - 1], None, None) == 0.0;
    assert WeightWithin(providers, ps[..|ps| - 1], None, Some(ps[0].price)) == 0.0;
    assert SortByPrice(ps) == [ps[0]];
  }

  // ---------------------------------------------------------------------------
  // What it is good for
  // ---------------------------------------------------------------------------

  lemma MedianIsUnique(providers: seq<Provider>, ps: seq<Price>, m: int, n: int)
    requires IsWeightedMedian(providers, ps, m) && IsWeightedMedian(providers, ps, n)
    ensures m == n
  {
    var p :| p in ps && p.price == m;
    var q :| q in ps && q.price == n;
  }

  /** Reordering the sources does not change the weighted median. */
  lemma MedianPermutes(providers: seq<Provider>, a: seq<Price>, b: seq<Price>, m: int)
    requires multiset(a) == multiset(b) && IsWeightedMedian(providers, a, m)
    ensures IsWeightedMedian(providers, b, m)
  {
    WeightPermutes(providers, a, b, None, None);
    WeightPermutes(providers, a, b, None, Some(m));
    var p :| p in a && p.price == m;
    assert p in multiset(b);
    forall q | q in b && q.price < m
      ensures WeightUpTo(providers, b, q.price) < TotalWeight(providers, b) / 2.0
    {
      assert q in multiset(a);
      WeightPermutes(providers, a, b, None, Some(q.price));
    }
  }

  lemma {:induction false} WeightSplits(providers: seq<Provider>, ps: seq<Price>, lo: int, hi: int, m: int)
    requires NonNegativeWeights(providers)
    ensures m < lo ==>
        WeightUpTo(providers, ps, m) + WeightWithin(providers, ps, Some(lo), Some(hi)) <= TotalWeight(providers, ps)
  {
    if ps != [] {
      WeightSplits(providers, ps[..|ps| - 1], lo, hi, m);
      WeightIsNonNegative(providers, ps[|ps| - 1].source);
    }
  }

  lemma {:induction false} LargestWithin(ps: seq<Price>, hi: int) returns (q: Price)
    requires exists p :: p in ps && p.price <= hi
    ensures q in ps && q.price <= hi && forall p | p in ps && p.price <= hi :: p.price <= q.price
  {
    var front, last := ps[..|ps| - 1], ps[|ps| - 1];
    assert ps == front + [last];
    if exists p :: p in front && p.price <= hi {
      q := LargestWithin(front, hi);
      if q.price < last.price <= hi { q := last; }
    } else {
      q := last;
    }
  }

  /**
   Robustness: if the sources that quote a price in [lo, hi] carry more than half of the weight, the
   weighted median lies in [lo, hi], whatever the other sources quote.
   */
  lemma MajorityDecides(providers: seq<Provider>, ps: seq<Price>, lo: int, hi: int, m: int)
    requires NonNegativeWeights(providers)
    requires IsWeightedMedian(providers, ps, m)
    requires WeightWithin(providers, ps, Some(lo), Some(hi)) > TotalWeight(providers, ps) / 2.0
    ensures lo <= m <= hi
  {
    WeightSplits(providers, ps, lo, hi, m);
    if m > hi {
      if exists p :: p in ps && p.price <= hi {
        var q := LargestWithin(ps, hi);
        WeightMonotone(providers, ps, Some(lo), Some(hi), None, Some(q.price));
      } else {
        WeightMonotone(providers, ps, Some(lo), Some(hi), Some(1), Some(0));
        NoneInEmptyRange(providers, ps);
        WeightMonotone(providers, ps, None, None, None, None);
      }
      assert false;
    }
  }

  lemma {:induction false} NoneInEmptyRange(providers: seq<Provider>, ps: seq<Price>)
    ensures WeightWithin(providers, ps, Some(1), Some(0)) == 0.0
  {
    if ps != [] { NoneInEmptyRange(providers, ps[..|ps| - 1]); }
  }

  // ---------------------------------------------------------------------------
  // The simple median
  // ---------------------------------------------------------------------------

  /** Throws (None) on an empty list. */
  function SimpleMedian(ps: seq<Price>): Option<int> {
    var sorted := SortByPrice(ps);
    var mid := |sorted| / 2;
    if sorted == [] then None
    else if |sorted| % 2 == 0 then
      SortIsSorted(ps);
      Some(TruncDiv(sorted[mid - 1].price + sorted[mid].price, 2))
    else Some(sorted[mid].price)
  }

  function CountWithin(ps: seq<Price>, lo: int, hi: int): nat {
    if ps == [] then 0
    else CountWithin(ps[..|ps| - 1], lo, hi) + if lo <= ps[|ps| - 1].price <= hi then 1 else 0
  }

  lemma {:induction false} CountPermutes(a: seq<Price>, b: seq<Price>, lo: int, hi: int)
    requires multiset(a) == multiset(b)
    ensures CountWithin(a, lo, hi) == CountWithin(b, lo, hi)
    decreases |a|
  {
    SameSize(a, b);
    if a != [] {
      var x := a[|a| - 1];
      var i := DropLast(a, b);
      CountPermutes(a[..|a| - 1], b[..i] + b[i + 1..], lo, hi);
      assert b == b[..i] + [x] + b[i + 1..] && a == a[..|a| - 1] + [x];
      CountAppend(b[..i], b[i + 1..], lo, hi);
      CountAppend(b[..i] + [x], b[i + 1..], lo, hi);
      CountAppend(b[..i], [x], lo, hi);
    }
  }

  lemma {:induction false} CountAppend(a: seq<Price>, b: seq<Price>, lo: int, hi: int)
    ensures CountWithin(a + b, lo, hi) == CountWithin(a, lo, hi) + CountWithin(b, lo, hi)
  {
    if b == [] {
      assert a + b == a;
    } else {
      assert (a + b)[..|a + b| - 1] == a + b[..|b| - 1];
      CountAppend(a, b[..|b| - 1], lo, hi);
    }
  }

  lemma {:induction false} CountBound(ps: seq<Price>, lo: int, hi: int)
    ensures CountWithin(ps, lo, hi) <= |ps|
    ensures (forall q | q in ps :: !(lo <= q.price <= hi)) ==> CountWithin(ps, lo, hi) == 0
  {
    if ps != [] { CountBound(ps[..|ps| - 1], lo, hi); }
  }

  lemma SplitCount(ps: seq<Price>, lo: int, hi: int, k: nat)
    requires k <= |ps|
    ensures CountWithin(ps, lo, hi) == CountWithin(ps[..k], lo, hi) + CountWithin(ps[k..], lo, hi)
    ensures CountWithin(ps[..k], lo, hi) <= k && CountWithin(ps[k..], lo, hi) <= |ps| - k
    ensures (forall j | 0 <= j < k :: !(lo <= ps[j].price <= hi)) ==> CountWithin(ps[..k], lo, hi) == 0
    ensures (forall j | k <= j < |ps| :: !(lo <= ps[j].price <= hi)) ==> CountWithin(ps[k..], lo, hi) == 0
  {
    assert ps == ps[..k] + ps[k..];
    CountAppend(ps[..k], ps[k..], lo, hi);
    CountBound(ps[..k], lo, hi);
    CountBound(ps[k..], lo, hi);
  }

  /** Every place of a sorted list that more than half of its prices leave room for is in their range. */
  lemma MiddleWithin(sorted: seq<Price>, lo: int, hi: int, i: nat)
    requires Ascending(sorted) && i < |sorted|
    requires CountWithin(sorted, lo, hi) > i && CountWithin(sorted, lo, hi) >= |sorted| - i
    ensures lo <= sorted[i].price <= hi
  {
    if sorted[i].price < lo {
      SplitCount(sorted, lo, hi, i + 1);
    } else if sorted[i].price > hi {
      SplitCount(sorted, lo, hi, i);
    }
  }

  /** If more than half of the prices lie in [lo, hi], so does the simple median, rounding included. */
  lemma SimpleMajorityDecides(ps: seq<Price>, lo: int, hi: int)
    requires 2 * CountWithin(ps, lo, hi) > |ps|
    ensures SimpleMedian(ps).Some? && lo <= SimpleMedian(ps).value <= hi
  {
    CountBound(ps, lo, hi);
    SortIsSorted(ps);
    var sorted := SortByPrice(ps);
    CountPermutes(ps, sorted, lo, hi);
    var mid := |sorted| / 2;
    MiddleWithin(sorted, lo, hi, mid);
    if |sorted| % 2 == 0 {
      MiddleWithin(sorted, lo, hi, mid - 1);
    }
  }
}
