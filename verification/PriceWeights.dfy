/**
 What configured weights and ranks mean for the aggregated price
 (oracle/src/services/price-aggregator.ts).
 */
module PriceWeights {
  import opened Arithmetic
  import opened Options
  import opened PriceAggregator

  // ---------------------------------------------------------------------------
  // Configured weights
  // ---------------------------------------------------------------------------

  ghost predicate DifferentNames(providers: seq<Provider>) {
    forall i, j | 0 <= i < j < |providers| :: providers[i].name != providers[j].name
  }

  ghost predicate OneQuoteEach(ps: seq<Price>) {
    forall i, j | 0 <= i < j < |ps| :: ps[i].source != ps[j].source
  }

  /** The weights of the providers with a name among the sources, added up. */
  ghost function Configured(providers: seq<Provider>, sources: set<string>): real {
    if providers == [] then 0.0
    else (if providers[0].name in sources then providers[0].weight else 0.0) + Configured(providers[1..], sources)
  }

  ghost function Names(providers: seq<Provider>): set<string> {
    set p | p in providers :: p.name
  }

  /** What the sources weigh together: each provider its own weight, each unknown source a tenth. */
  ghost function Together(providers: seq<Provider>, sources: set<string>): real {
    Configured(providers, sources) + 0.1 * |sources - Names(providers)| as real
  }

  ghost function SourcesWithin(ps: seq<Price>, lo: Option<int>, hi: Option<int>): set<string> {
    set q | q in ps && Within(q.price, lo, hi) :: q.source
  }

  lemma {:induction false} ConfiguredAdds(providers: seq<Provider>, a: set<string>, b: set<string>)
    requires a !! b
    ensures Configured(providers, a + b) == Configured(providers, a) + Configured(providers, b)
  {
    if providers != [] { ConfiguredAdds(providers[1..], a, b); }
  }

  lemma {:induction false} ConfiguredNone(providers: seq<Provider>, sources: set<string>)
    requires forall p | p in providers :: p.name !in sources
    ensures Configured(providers, sources) == 0.0
  {
    if providers != [] {
      assert providers[0] in providers;
      assert forall p | p in providers[1..] :: p in providers;
      ConfiguredNone(providers[1..], sources);
    }
  }

  lemma TogetherAdds(providers: seq<Provider>, a: set<string>, x: string)
    requires x !in a
    ensures Together(providers, a + {x}) == Together(providers, a) + Together(providers, {x})
  {
    ConfiguredAdds(providers, a, {x});
    var names := Names(providers);
    assert (a + {x}) - names == (a - names) + ({x} - names);
    assert |(a - names) + ({x} - names)| == |a - names| + |{x} - names|;
  }

  ghost predicate Known(providers: seq<Provider>, x: string) {
    exists p :: p in providers && p.name == x
  }

  lemma KnownInRest(providers: seq<Provider>, x: string)
    requires providers != []
    ensures Known(providers, x) <==> providers[0].name == x || Known(providers[1..], x)
  {
    assert providers == [providers[0]] + providers[1..];
    if providers[0].name == x { assert providers[0] in providers; }
    if Known(providers[1..], x) {
      var p :| p in providers[1..] && p.name == x;
      assert p in providers;
    }
    if Known(providers, x) && providers[0].name != x {
      var p :| p in providers && p.name == x;
      assert p in providers[1..];
    }
  }

  /** The lookup by name finds the provider's own weight, or else a tenth. */
  lemma {:induction false} LookupExactly(providers: seq<Provider>, x: string)
    requires DifferentNames(providers)
    ensures if Known(providers, x) then Configured(providers, {x}) == WeightOf(providers, x)
            else Configured(providers, {x}) == 0.0 && WeightOf(providers, x) == 0.1
  {
    if providers != [] {
      KnownInRest(providers, x);
      LookupExactly(providers[1..], x);
      if providers[0].name == x {
        assert forall p | p in providers[1..] :: p.name != x;
        ConfiguredNone(providers[1..], {x});
      }
    }
  }

  lemma {:induction false} OwnWeight(providers: seq<Provider>, p: Provider)
    requires DifferentNames(providers) && p in providers
    ensures Configured(providers, {p.name}) == p.weight
  {
    var rest := providers[1..];
    assert providers == [providers[0]] + rest;
    if providers[0] == p {
      ConfiguredNone(rest, {p.name});
    } else {
      OwnWeight(rest, p);
      var i :| 0 <= i < |providers| && providers[i] == p;
    }
  }

  /** One source alone weighs what the lookup by name finds. */
  lemma AloneIsLookup(providers: seq<Provider>, x: string)
    requires DifferentNames(providers)
    ensures Together(providers, {x}) == WeightOf(providers, x)
  {
    LookupExactly(providers, x);
    if Known(providers, x) {
      assert {x} - Names(providers) == {};
    } else {
      assert {x} - Names(providers) == {x};
    }
  }

  /**
   With different provider names and one quote from each source, the quotes of a price range weigh
   together what the configuration says: the weights of the providers that quote in it, and a tenth for
   every unknown source.
   */
  lemma {:induction false} RangeWeighsAsConfigured(providers: seq<Provider>, ps: seq<Price>,
                                                   lo: Option<int>, hi: Option<int>)
    requires DifferentNames(providers) && OneQuoteEach(ps)
    ensures WeightWithin(providers, ps, lo, hi) == Together(providers, SourcesWithin(ps, lo, hi))
  {
    if ps == [] {
      NothingTogether(providers);
      assert SourcesWithin(ps, lo, hi) == {};
    } else {
      var front, last := ps[..|ps| - 1], ps[|ps| - 1];
      RangeWeighsAsConfigured(providers, front, lo, hi);
      SourcesUnfold(ps, lo, hi);
      if Within(last.price, lo, hi) {
        TogetherAdds(providers, SourcesWithin(front, lo, hi), last.source);
        AloneIsLookup(providers, last.source);
      }
    }
  }

  lemma NothingTogether(providers: seq<Provider>)
    ensures Together(providers, {}) == 0.0
  {
    ConfiguredNone(providers, {});
    assert {} - Names(providers) == {};
  }

  lemma SourcesUnfold(ps: seq<Price>, lo: Option<int>, hi: Option<int>)
    requires ps != [] && OneQuoteEach(ps)
    ensures var front, last := SourcesWithin(ps[..|ps| - 1], lo, hi), ps[|ps| - 1];
      && last.source !in front
      && SourcesWithin(ps, lo, hi) == if Within(last.price, lo, hi) then front + {last.source} else front
  {
    assert ps == ps[..|ps| - 1] + [ps[|ps| - 1]];
    LastIsNew(ps);
  }

  lemma LastIsNew(ps: seq<Price>)
    requires ps != [] && OneQuoteEach(ps)
    ensures forall q | q in ps[..|ps| - 1] :: q.source != ps[|ps| - 1].source
  {
  }

  lemma {:induction false} ConfiguredAtLeast(providers: seq<Provider>, sources: set<string>, x: string)
    requires NonNegativeWeights(providers) && x in sources
    ensures Configured(providers, sources) >= Configured(providers, {x}) >= 0.0
  {
    if providers != [] {
      assert providers[0] in providers && forall p | p in providers[1..] :: p in providers;
      ConfiguredAtLeast(providers[1..], sources, x);
    }
  }

  /**
   A provider whose configured weight is more than half of what all quoting sources weigh together
   fixes the weighted median at its own quote, whatever the others quote.
   */
  lemma HeavyProviderDecides(providers: seq<Provider>, ps: seq<Price>, p: Provider, q: Price, m: int)
    requires NonNegativeWeights(providers) && DifferentNames(providers) && OneQuoteEach(ps)
    requires p in providers && q in ps && q.source == p.name
    requires p.weight > Together(providers, SourcesWithin(ps, None, None)) / 2.0
    requires IsWeightedMedian(providers, ps, m)
    ensures m == q.price
  {
    var at := Some(q.price);
    RangeWeighsAsConfigured(providers, ps, None, None);
    RangeWeighsAsConfigured(providers, ps, at, at);
    assert q.source in SourcesWithin(ps, at, at);
    OwnWeight(providers, p);
    ConfiguredAtLeast(providers, SourcesWithin(ps, at, at), p.name);
    MajorityDecides(providers, ps, q.price, q.price, m);
  }

  /** The sources of all quotes. */
  lemma AllSources(ps: seq<Price>)
    ensures SourcesWithin(ps, None, None) == set q | q in ps :: q.source
  {
  }

  // ---------------------------------------------------------------------------
  // Ranks
  // ---------------------------------------------------------------------------

  /** How many quotes are at most `x`. */
  function CountUpTo(ps: seq<Price>, x: int): nat {
    if ps == [] then 0 else CountUpTo(ps[..|ps| - 1], x) + if ps[|ps| - 1].price <= x then 1 else 0
  }

  /** In ascending order, starting with 0, the k-th quote has this price. */
  ghost predicate HasRank(ps: seq<Price>, k: nat, x: int) {
    CountUpTo(ps, x - 1) <= k < CountUpTo(ps, x)
  }

  lemma {:induction false} CountUpToAppend(a: seq<Price>, b: seq<Price>, x: int)
    ensures CountUpTo(a + b, x) == CountUpTo(a, x) + CountUpTo(b, x)
  {
    if b == [] {
      assert a + b == a;
    } else {
      assert (a + b)[..|a + b| - 1] == a + b[..|b| - 1];
      CountUpToAppend(a, b[..|b| - 1], x);
    }
  }

  lemma {:induction false} CountUpToPermutes(a: seq<Price>, b: seq<Price>, x: int)
    requires multiset(a) == multiset(b)
    ensures CountUpTo(a, x) == CountUpTo(b, x)
    decreases |a|
  {
    SameSize(a, b);
    if a != [] {
      var last := a[|a| - 1];
      var i := DropLast(a, b);
      CountUpToPermutes(a[..|a| - 1], b[..i] + b[i + 1..], x);
      assert b == b[..i] + [last] + b[i + 1..] && a == a[..|a| - 1] + [last];
      CountUpToAppend(b[..i], b[i + 1..], x);
      CountUpToAppend(b[..i] + [last], b[i + 1..], x);
      CountUpToAppend(b[..i], [last], x);
    }
  }

  lemma {:induction false} CountUpToBounds(ps: seq<Price>, x: int)
    ensures CountUpTo(ps, x) <= |ps|
    ensures (forall q | q in ps :: q.price <= x) ==> CountUpTo(ps, x) == |ps|
    ensures (forall q | q in ps :: q.price > x) ==> CountUpTo(ps, x) == 0
  {
    if ps != [] {
      assert ps == ps[..|ps| - 1] + [ps[|ps| - 1]];
      CountUpToBounds(ps[..|ps| - 1], x);
    }
  }

  lemma AroundInSorted(sorted: seq<Price>, k: nat)
    requires Ascending(sorted) && k < |sorted|
    ensures forall q | q in sorted[..k + 1] :: q.price <= sorted[k].price
    ensures forall q | q in sorted[k..] :: q.price >= sorted[k].price
  {
  }

  lemma UpToInSorted(sorted: seq<Price>, k: nat)
    requires Ascending(sorted) && k < |sorted|
    ensures CountUpTo(sorted, sorted[k].price) > k
  {
    AroundInSorted(sorted, k);
    SplitCountUpTo(sorted, k + 1, sorted[k].price);
    CountUpToBounds(sorted[..k + 1], sorted[k].price);
  }

  lemma BelowInSorted(sorted: seq<Price>, k: nat)
    requires Ascending(sorted) && k < |sorted|
    ensures CountUpTo(sorted, sorted[k].price - 1) <= k
  {
    AroundInSorted(sorted, k);
    SplitCountUpTo(sorted, k, sorted[k].price - 1);
    CountUpToBounds(sorted[..k], sorted[k].price - 1);
    CountUpToBounds(sorted[k..], sorted[k].price - 1);
  }

  lemma SplitCountUpTo(ps: seq<Price>, k: nat, x: int)
    requires k <= |ps|
    ensures CountUpTo(ps, x) == CountUpTo(ps[..k], x) + CountUpTo(ps[k..], x)
  {
    CountUpToAppend(ps[..k], ps[k..], x);
    assert ps[..k] + ps[k..] == ps;
  }

  lemma SortedRank(ps: seq<Price>, k: nat)
    requires k < |ps|
    ensures |SortByPrice(ps)| == |ps| && HasRank(ps, k, SortByPrice(ps)[k].price)
  {
    var sorted := SortByPrice(ps);
    SortIsSorted(ps);
    UpToInSorted(sorted, k);
    BelowInSorted(sorted, k);
    CountUpToPermutes(ps, sorted, sorted[k].price);
    CountUpToPermutes(ps, sorted, sorted[k].price - 1);
  }

  /** At most one price has a rank. */
  lemma RankIsUnique(ps: seq<Price>, k: nat, x: int, y: int)
    requires HasRank(ps, k, x) && HasRank(ps, k, y)
    ensures x == y
  {
    if x < y { CountUpToMonotone(ps, x, y - 1); } else if y < x { CountUpToMonotone(ps, y, x - 1); }
  }

  lemma {:induction false} CountUpToMonotone(ps: seq<Price>, x: int, y: int)
    requires x <= y
    ensures CountUpTo(ps, x) <= CountUpTo(ps, y)
  {
    if ps != [] { CountUpToMonotone(ps[..|ps| - 1], x, y); }
  }

  /** The two prices in the middle of an even number of quotes. */
  ghost predicate IsMiddlePair(ps: seq<Price>, a: int, b: int) {
    |ps| >= 2 && HasRank(ps, |ps| / 2 - 1, a) && HasRank(ps, |ps| / 2, b)
  }

  ghost predicate IsRoundedMean(m: int, a: int, b: int) {
    if a + b >= 0 then 2 * m <= a + b <= 2 * m + 1 else 2 * m - 1 <= a + b <= 2 * m
  }

  /**
   The simple median: of an odd number of quotes the one of middle rank, of an even number the mean of
   the two middle ones, rounded towards zero.
   */
  lemma SimpleMedianByRank(ps: seq<Price>)
    ensures SimpleMedian(ps) == None <==> ps == []
    ensures |ps| % 2 == 1 ==> HasRank(ps, |ps| / 2, SimpleMedian(ps).value)
    ensures ps != [] && |ps| % 2 == 0 ==>
      exists a, b :: IsMiddlePair(ps, a, b) && IsRoundedMean(SimpleMedian(ps).value, a, b)
  {
    SortIsSorted(ps);
    if ps != [] {
      var sorted, mid := SortByPrice(ps), |ps| / 2;
      SortedRank(ps, mid);
      if |ps| % 2 == 0 {
        SortedRank(ps, mid - 1);
        var a, b := sorted[mid - 1].price, sorted[mid].price;
        assert IsMiddlePair(ps, a, b) && IsRoundedMean(SimpleMedian(ps).value, a, b);
      }
    }
  }
}
