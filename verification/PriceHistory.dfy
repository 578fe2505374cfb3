/**
 One asset's price history: a circular buffer and the time-weighted average over it
 (oracle/src/services/price-history.ts).
 */
module PriceHistory {
  import opened Arithmetic
  import opened Options

  datatype Entry = Entry(price: int, timestamp: int)

  datatype Twap = Twap(twap: int, periodSeconds: int, dataPoints: nat, startTime: int, endTime: int)

  /** The last `n` elements, or all if there are fewer. */
  function Last(s: seq<Entry>, n: nat): seq<Entry> {
    if |s| <= n then s else s[|s| - n..]
  }

  // ---------------------------------------------------------------------------
  // The time-weighted average, on a list of entries
  // ---------------------------------------------------------------------------

  function InPeriod(es: seq<Entry>, start: int): seq<Entry> {
    if es == [] then []
    else if es[0].timestamp >= start then [es[0]] + InPeriod(es[1..], start)
    else InPeriod(es[1..], start)
  }

  /** Each entry lasts until the next one, the last one until `now`. */
  function TotalTime(es: seq<Entry>, now: int): int
    requires es != []
  {
    if |es| == 1 then now - es[0].timestamp
    else es[1].timestamp - es[0].timestamp + TotalTime(es[1..], now)
  }

  function WeightedSum(es: seq<Entry>, now: int): int
    requires es != []
  {
    if |es| == 1 then es[0].price * (now - es[0].timestamp)
    else es[0].price * (es[1].timestamp - es[0].timestamp) + WeightedSum(es[1..], now)
  }

  function TwapOf(es: seq<Entry>, period: int, now: int): Option<Twap> {
    var inside := InPeriod(es, now - period);
    if |inside| < 2 || TotalTime(inside, now) == 0 then None
    else Some(Twap(TruncDiv(WeightedSum(inside, now), TotalTime(inside, now)), period, |inside|,
                   inside[0].timestamp, inside[|inside| - 1].timestamp))
  }

  // ---------------------------------------------------------------------------
  // The buffer
  // ---------------------------------------------------------------------------

  type Buffer = seq<Option<Entry>>

  /** The used slots, oldest first. */
  function Slots(buffer: Buffer, currentIndex: nat, isFull: bool): Buffer
    requires currentIndex <= |buffer|
  {
    if isFull then buffer[currentIndex..] + buffer[..currentIndex] else buffer[..currentIndex]
  }

  ghost predicate Holds(slots: Buffer, es: seq<Entry>) {
    |slots| == |es| && forall i | 0 <= i < |slots| :: slots[i] == Some(es[i])
  }

  /** The slots hold the last entries of `added`; the buffer is full once it has wrapped around. */
  ghost predicate RingValid(buffer: Buffer, currentIndex: nat, isFull: bool, added: seq<Entry>) {
    && currentIndex < |buffer|
    && (isFull <==> |added| >= |buffer|)
    && Holds(Slots(buffer, currentIndex, isFull), Last(added, |buffer|))
  }

  lemma RingStep(buffer: Buffer, currentIndex: nat, isFull: bool, added: seq<Entry>, e: Entry)
    requires RingValid(buffer, currentIndex, isFull, added)
    ensures var next := if currentIndex + 1 == |buffer| then 0 else currentIndex + 1;
      RingValid(buffer[currentIndex := Some(e)], next, isFull || next == 0, added + [e])
  {
    var max := |buffer|;
    var next := if currentIndex + 1 == max then 0 else currentIndex + 1;
    var slots := Slots(buffer, currentIndex, isFull);
    var slots' := Slots(buffer[currentIndex := Some(e)], next, isFull || next == 0);
    if isFull {
      assert slots' == slots[1..] + [Some(e)];
      assert Last(added + [e], max) == Last(added, max)[1..] + [e];
    } else {
      assert |slots| == currentIndex == |added|;
      assert slots' == slots + [Some(e)];
      assert Last(added + [e], max) == added + [e];
    }
  }

  lemma Wrap(k: nat, max: nat)
    requires 0 < max && k < 2 * max
    ensures k % max == if k < max then k else k - max
  {
    if k >= max { assert k == 1 * max + (k - max); }
  }

  lemma SlotAt(buffer: Buffer, currentIndex: nat, i: nat)
    requires currentIndex < |buffer| && i < |buffer|
    ensures buffer[(currentIndex + i) % |buffer|] == Slots(buffer, currentIndex, true)[i]
  {
    Wrap(currentIndex + i, |buffer|);
  }

  class PriceRing {
    const entries: array<Option<Entry>>
    const maxEntries: nat
    var currentIndex: nat
    var isFull: bool
    ghost var added: seq<Entry>  // every entry ever added, in order

    ghost predicate Valid()
      reads this, entries
    {
      entries.Length == maxEntries && RingValid(entries[..], currentIndex, isFull, added)
    }

    constructor (maxEntries: nat)
      requires maxEntries >= 1
      ensures Valid() && fresh(entries)
      ensures added == [] && this.maxEntries == maxEntries
    {
      this.maxEntries := maxEntries;
      entries := new Option<Entry>[maxEntries](_ => None);
      currentIndex, isFull, added := 0, false, [];
    }

    method AddPriceEntry(price: int, timestamp: int)
      requires Valid()
      modifies this, entries
      ensures Valid() && added == old(added) + [Entry(price, timestamp)]
    {
      ghost var before := entries[..];
      RingStep(before, currentIndex, isFull, added, Entry(price, timestamp));
      Wrap(currentIndex + 1, maxEntries);
      entries[currentIndex] := Some(Entry(price, timestamp));
      assert entries[..] == before[currentIndex := Some(Entry(price, timestamp))];
      currentIndex := (currentIndex + 1) % maxEntries;
      if currentIndex == 0 {
        isFull := true;
      }
      added := added + [Entry(price, timestamp)];
    }

    /** The last maxEntries entries added, oldest first; a positive limit keeps only the oldest of them. */
    method GetPriceHistory(limit: nat) returns (es: seq<Entry>)
      requires Valid()
      ensures es == var all := Last(added, maxEntries); if 0 < limit < |all| then all[..limit] else all
    {
      es := [];
      ghost var all := Last(added, maxEntries);
      if isFull {
        for i := 0 to maxEntries
          invariant es == all[..i]
          invariant limit > 0 ==> |es| < limit
        {
          SlotAt(entries[..], currentIndex, i);
          var index := (currentIndex + i) % maxEntries;
          assert entries[index] == entries[..][index] == Some(all[i]);
          var entry := entries[index];
          if entry.Some? {
            es := es + [entry.value];
            if limit > 0 && |es| >= limit {
              break;
            }
          }
        }
      } else {
        for i := 0 to currentIndex
          invariant es == all[..i]
          invariant limit > 0 ==> |es| < limit
        {
          assert entries[i] == Slots(entries[..], currentIndex, false)[i] == Some(all[i]);
          var entry := entries[i];
          if entry.Some? {
            es := es + [entry.value];
            if limit > 0 && |es| >= limit {
              break;
            }
          }
        }
      }
    }

    method GetLatestPrice() returns (r: Option<Entry>)
      requires Valid()
      ensures r == if added == [] then None else Some(added[|added| - 1])
    {
      if currentIndex == 0 && !isFull {
        return None;
      }
      var latestIndex := if currentIndex == 0 then maxEntries - 1 else currentIndex - 1;
      ghost var slots := Slots(entries[..], currentIndex, isFull);
      assert entries[latestIndex] == slots[|slots| - 1];
      return entries[latestIndex];
    }

    method CalculateTWAP(periodSeconds: int, now: int) returns (r: Option<Twap>)
      requires Valid()
      ensures r == TwapOf(Last(added, maxEntries), periodSeconds, now)
    {
      var all := GetPriceHistory(0);
      FewInPeriod(all, now - periodSeconds);
      if |all| < 2 {
        return None;
      }
      var startTime := now - periodSeconds;
      var periodEntries := InPeriod(all, startTime);
      if |periodEntries| < 2 {
        return None;
      }
      var totalTime, weightedSum := 0, 0;
      for i := 0 to |periodEntries| - 1
        invariant totalTime + TotalTime(periodEntries[i..], now) == TotalTime(periodEntries, now)
        invariant weightedSum + WeightedSum(periodEntries[i..], now) == WeightedSum(periodEntries, now)
      {
        var current, next := periodEntries[i], periodEntries[i + 1];
        assert periodEntries[i..][1..] == periodEntries[i + 1..];
        var timeDiff := next.timestamp - current.timestamp;
        totalTime := totalTime + timeDiff;
        weightedSum := weightedSum + current.price * timeDiff;
      }
      var lastEntry := periodEntries[|periodEntries| - 1];
      assert periodEntries[|periodEntries| - 1..] == [lastEntry];
      var lastTimeDiff := now - lastEntry.timestamp;
      totalTime := totalTime + lastTimeDiff;
      weightedSum := weightedSum + lastEntry.price * lastTimeDiff;
      if totalTime == 0 {
        return None;
      }
      return Some(Twap(TruncDiv(weightedSum, totalTime), periodSeconds, |periodEntries|,
                       periodEntries[0].timestamp, lastEntry.timestamp));
    }
  }

  lemma {:induction false} FewInPeriod(es: seq<Entry>, start: int)
    ensures |InPeriod(es, start)| <= |es|
  {
    if es != [] { FewInPeriod(es[1..], start); }
  }

  // ---------------------------------------------------------------------------
  // What the average is
  // ---------------------------------------------------------------------------

  ghost predicate Chronological(es: seq<Entry>, now: int) {
    && (forall i, j | 0 <= i < j < |es| :: es[i].timestamp <= es[j].timestamp)
    && (forall i | 0 <= i < |es| :: es[i].timestamp <= now)
  }

  /** The denominator telescopes, whatever the timestamps. */
  lemma {:induction false} TotalTimeTelescopes(es: seq<Entry>, now: int)
    requires es != []
    ensures TotalTime(es, now) == now - es[0].timestamp
  {
    if |es| > 1 { TotalTimeTelescopes(es[1..], now); }
  }

  /** The price in force at second `t`: that of the latest entry not after it (the first entry's before that). */
  ghost function PriceAt(es: seq<Entry>, t: int): int
    requires es != []
  {
    if |es| == 1 || es[|es| - 1].timestamp <= t then es[|es| - 1].price else PriceAt(es[..|es| - 1], t)
  }

  /** The prices in force at the seconds lo, ..., hi - 1, added up. */
  ghost function SumOfPrices(es: seq<Entry>, lo: int, hi: int): int
    requires es != []
    decreases hi - lo
  {
    if lo >= hi then 0 else PriceAt(es, lo) + SumOfPrices(es, lo + 1, hi)
  }

  lemma {:induction false} FirstInForce(es: seq<Entry>, t: int)
    requires es != [] && forall i | 1 <= i < |es| :: es[i].timestamp > t
    ensures PriceAt(es, t) == es[0].price
  {
    if |es| > 1 { FirstInForce(es[..|es| - 1], t); }
  }

  lemma {:induction false} RestInForce(es: seq<Entry>, t: int)
    requires |es| > 1 && es[1].timestamp <= t
    ensures PriceAt(es, t) == PriceAt(es[1..], t)
  {
    var n := |es| - 1;
    if n > 1 && es[n].timestamp > t {
      RestInForce(es[..n], t);
      assert es[..n][1..] == es[1..][..n - 1];
    }
  }

  lemma {:induction false} SumWhileFirst(es: seq<Entry>, lo: int, hi: int)
    requires es != [] && lo <= hi && forall i | 1 <= i < |es| :: es[i].timestamp >= hi
    ensures SumOfPrices(es, lo, hi) == es[0].price * (hi - lo)
    decreases hi - lo
  {
    if lo < hi {
      FirstInForce(es, lo);
      SumWhileFirst(es, lo + 1, hi);
      Distribute(es[0].price, hi - lo - 1);
    }
  }

  lemma Distribute(p: int, n: int)
    ensures p * (n + 1) == p + p * n
  {
  }

  lemma {:induction false} SumOfRest(es: seq<Entry>, lo: int, hi: int)
    requires |es| > 1 && es[1].timestamp <= lo
    ensures SumOfPrices(es, lo, hi) == SumOfPrices(es[1..], lo, hi)
    decreases hi - lo
  {
    if lo < hi {
      RestInForce(es, lo);
      SumOfRest(es, lo + 1, hi);
    }
  }

  lemma {:induction false} SumSplits(es: seq<Entry>, lo: int, mid: int, hi: int)
    requires es != [] && lo <= mid <= hi
    ensures SumOfPrices(es, lo, hi) == SumOfPrices(es, lo, mid) + SumOfPrices(es, mid, hi)
    decreases mid - lo
  {
    if lo < mid { SumSplits(es, lo + 1, mid, hi); }
  }

  /**
   For chronological entries the numerator is the price in force, added up over every second since the
   first entry.
   */
  lemma {:induction false} NumeratorIsSumOverSeconds(es: seq<Entry>, now: int)
    requires es != [] && Chronological(es, now)
    ensures WeightedSum(es, now) == SumOfPrices(es, es[0].timestamp, now)
  {
    var t0 := es[0].timestamp;
    if |es| == 1 {
      SumWhileFirst(es, t0, now);
    } else {
      var t1 := es[1].timestamp;
      NumeratorIsSumOverSeconds(es[1..], now);
      SumSplits(es, t0, t1, now);
      SumWhileFirst(es, t0, t1);
      SumOfRest(es, t1, now);
    }
  }

  lemma {:induction false} SumBounds(es: seq<Entry>, now: int, lo: int, hi: int)
    requires es != [] && Chronological(es, now)
    requires forall i | 0 <= i < |es| :: lo <= es[i].price <= hi
    ensures lo * TotalTime(es, now) <= WeightedSum(es, now) <= hi * TotalTime(es, now)
  {
    if |es| == 1 {
      Scale(lo, es[0].price, hi, now - es[0].timestamp);
    } else {
      var d := es[1].timestamp - es[0].timestamp;
      Scale(lo, es[0].price, hi, d);
      SumBounds(es[1..], now, lo, hi);
      var t := TotalTime(es[1..], now);
      Factor(lo, d, t);
      Factor(hi, d, t);
    }
  }

  lemma Scale(lo: int, p: int, hi: int, d: int)
    requires lo <= p <= hi && d >= 0
    ensures lo * d <= p * d <= hi * d
  {
  }

  lemma Factor(p: int, d: int, t: int)
    ensures p * (d + t) == p * d + p * t
  {
  }

  lemma CancelLess(x: int, y: int, t: int)
    requires t > 0 && x * t < y * t
    ensures x < y
  {
    if x >= y { Scale(y, x, x, t); }
  }

  lemma FloorBetween(a: int, t: int, lo: int, hi: int)
    requires t > 0 && lo * t <= a <= hi * t
    ensures lo <= a / t <= hi
  {
    var q := a / t;
    assert a == q * t + a % t;
    Factor(t, q, 1);
    Factor(t, hi, 1);
    CancelLess(lo, q + 1, t);
    CancelLess(q, hi + 1, t);
  }

  lemma TruncBetween(a: int, t: int, lo: int, hi: int)
    requires t > 0 && lo * t <= a <= hi * t
    ensures lo <= TruncDiv(a, t) <= hi
  {
    if a >= 0 {
      FloorBetween(a, t, lo, hi);
    } else {
      assert (-hi) * t == -(hi * t) && (-lo) * t == -(lo * t);
      FloorBetween(-a, t, -hi, -lo);
    }
  }

  /** In chronological order the entries of the period are the last ones. */
  lemma {:induction false} PeriodIsTail(es: seq<Entry>, start: int, now: int) returns (k: nat)
    requires Chronological(es, now)
    ensures IsPeriodFrom(es, start, k) && InPeriod(es, start) == es[k..]
  {
    if es == [] {
      k := 0;
    } else if es[0].timestamp >= start {
      AllInPeriod(es, start);
      k := 0;
    } else {
      k := PeriodIsTail(es[1..], start, now);
      k := k + 1;
    }
  }

  ghost predicate IsPeriodFrom(es: seq<Entry>, start: int, k: nat) {
    && k <= |es|
    && (forall i | 0 <= i < k :: es[i].timestamp < start)
    && (forall i | k <= i < |es| :: es[i].timestamp >= start)
  }

  lemma {:induction false} AllInPeriod(es: seq<Entry>, start: int)
    requires forall i | 0 <= i < |es| :: es[i].timestamp >= start
    ensures InPeriod(es, start) == es
  {
    if es != [] {
      AllInPeriod(es[1..], start);
      assert es == [es[0]] + es[1..];
    }
  }

  /**
   The time-weighted average of chronological entries not after `now`: it exists exactly when at
   least two entries lie in the period and the first of them, es[k], is in the past; it is then the
   truncated mean, over every second since that entry, of the price in force, reported with the
   period's number of entries and its first and last times, and lies between the smallest and the
   largest price of the period.
   */
  lemma TwapIsMeanPrice(es: seq<Entry>, period: int, now: int, lo: int, hi: int, k: nat)
    requires Chronological(es, now) && IsPeriodFrom(es, now - period, k)
    requires forall i | k <= i < |es| :: lo <= es[i].price <= hi
    ensures var r := TwapOf(es, period, now);
      && (r.Some? <==> |es| - k >= 2 && es[k].timestamp < now)
      && (r.Some? ==>
            var first := es[k].timestamp; var mean := TruncDiv(SumOfPrices(es[k..], first, now), now - first);
            r.value == Twap(mean, period, |es| - k, first, es[|es| - 1].timestamp) && lo <= mean <= hi)
  {
    var inside := es[k..];
    var k' := PeriodIsTail(es, now - period, now);
    assert k < |es| ==> es[k].timestamp >= now - period;
    assert k' < |es| ==> es[k'].timestamp >= now - period;
    assert k' == k;
    if |inside| >= 2 {
      TotalTimeTelescopes(inside, now);
      NumeratorIsSumOverSeconds(inside, now);
      SumBounds(inside, now, lo, hi);
      if inside[0].timestamp < now {
        TruncBetween(WeightedSum(inside, now), TotalTime(inside, now), lo, hi);
      }
    }
  }
}
