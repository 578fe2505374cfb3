/**
 The FIFO cache with a time to live and a size bound (api/src/utils/boundedTtlCache.ts).

 The cache is compared with the plain list of all operations on it: a read returns the last value
 set for the key exactly when that write was not deleted, is young enough, and never had too many
 other keys behind it.
 */
module BoundedTtlCache {
  import opened InsertionMap
  import opened LastTouch
  import opened Options

  type Key = string

  datatype Entry<V> = Entry(createdAt: int, expiresAt: int, value: V)

  datatype Config = Config(ttlMs: int, maxEntries: nat)

  type Entries<V> = seq<Pair<Key, Entry<V>>>

  // ---------------------------------------------------------------------------
  // Specification
  // ---------------------------------------------------------------------------

  function Live<V>(m: Entries<V>, now: int): Entries<V> {
    if m == [] then []
    else if m[0].value.expiresAt <= now then Live(m[1..], now)
    else [m[0]] + Live(m[1..], now)
  }

  /** Drops the oldest entries until the bound holds, or until the oldest key is the empty string. */
  function Bounded<V>(m: Entries<V>, max: nat): Entries<V> {
    if |m| > max && m[0].key != "" then Bounded(m[1..], max) else m
  }

  function AfterSet<V>(cfg: Config, m: Entries<V>, k: Key, v: V, now: int): Entries<V> {
    Bounded(Delete(Live(m, now), k) + [Pair(k, Entry(now, now + cfg.ttlMs, v))], cfg.maxEntries)
  }

  /** A read looks at the clock twice: once to prune, and once more for the entry itself. */
  function AfterGet<V>(m: Entries<V>, k: Key, t1: int, t2: int): Entries<V> {
    var live := Live(m, t1);
    if Has(live, k) && live[IndexOf(live, k)].value.expiresAt <= t2 then Delete(live, k) else live
  }

  function GetResult<V>(m: Entries<V>, k: Key, t1: int, t2: int): Option<V> {
    var live := Live(m, t1);
    if Has(live, k) && live[IndexOf(live, k)].value.expiresAt > t2 then Some(live[IndexOf(live, k)].value.value)
    else None
  }

  class BoundedTtlCache<V> {
    const cfg: Config
    var entries: Entries<V>

    constructor (cfg: Config)
      ensures this.cfg == cfg && entries == []
    {
      this.cfg := cfg;
      entries := [];
    }

    method Get(key: Key, t1: int, t2: int) returns (r: Option<V>)
      modifies this
      ensures entries == AfterGet(old(entries), key, t1, t2)
      ensures r == GetResult(old(entries), key, t1, t2)
    {
      PruneExpired(t1);
      if !Has(entries, key) {
        return None;
      }
      var entry := entries[IndexOf(entries, key)].value;
      if entry.expiresAt <= t2 {
        entries := InsertionMap.Delete(entries, key);
        return None;
      }
      return Some(entry.value);
    }

    method Set(key: Key, value: V, now: int)
      modifies this
      ensures entries == AfterSet(cfg, old(entries), key, value, now)
    {
      PruneExpired(now);
      entries := InsertionMap.Delete(entries, key);
      entries := entries + [Pair(key, Entry(now, now + cfg.ttlMs, value))];
      EnforceBounds();
    }

    method Delete(key: Key)
      modifies this
      ensures entries == InsertionMap.Delete(old(entries), key)
    {
      entries := InsertionMap.Delete(entries, key);
    }

    method Clear()
      modifies this
      ensures entries == []
    {
      entries := [];
    }

    method Size(now: int) returns (n: nat)
      modifies this
      ensures entries == Live(old(entries), now) && n == |entries|
    {
      PruneExpired(now);
      n := |entries|;
    }

    method PruneExpired(now: int)
      modifies this
      ensures entries == Live(old(entries), now)
    {
      var i := 0;
      while i < |entries|
        invariant 0 <= i <= |entries|
        invariant entries[..i] + Live(entries[i..], now) == Live(old(entries), now)
        decreases |entries| - i
      {
        var here := entries[i..];
        if entries[i].value.expiresAt <= now {
          entries := entries[..i] + entries[i + 1..];
          assert entries[i..] == here[1..];
        } else {
          assert entries[..i + 1] + Live(here[1..], now) == entries[..i] + ([here[0]] + Live(here[1..], now));
          i := i + 1;
          assert entries[i..] == here[1..];
        }
      }
      assert entries[..i] == entries;
    }

    method EnforceBounds()
      modifies this
      ensures entries == Bounded(old(entries), cfg.maxEntries)
    {
      while |entries| > cfg.maxEntries
        invariant Bounded(entries, cfg.maxEntries) == Bounded(old(entries), cfg.maxEntries)
        decreases |entries|
      {
        if entries[0].key == "" {
          break;
        }
        entries := entries[1..];
      }
    }
  }

  // ---------------------------------------------------------------------------
  // The history of a cache
  // ---------------------------------------------------------------------------

  datatype Op<V> =
    | SetOp(key: Key, value: V, now: int)
    | GetOp(key: Key, t1: int, t2: int)
    | SizeOp(now: int)
    | DeleteOp(key: Key, now: int)
    | ClearOp(now: int)
  {
    function Start(): int { if GetOp? then t1 else now }
    function End(): int { if GetOp? then t2 else now }
  }

  function Step<V>(cfg: Config, m: Entries<V>, op: Op<V>): Entries<V> {
    match op
    case SetOp(k, v, t) => AfterSet(cfg, m, k, v, t)
    case GetOp(k, t1, t2) => AfterGet(m, k, t1, t2)
    case SizeOp(t) => Live(m, t)
    case DeleteOp(k, _) => InsertionMap.Delete(m, k)
    case ClearOp(_) => []
  }

  function Run<V>(cfg: Config, ops: seq<Op<V>>): Entries<V> {
    if ops == [] then [] else Step(cfg, Run(cfg, ops[..|ops| - 1]), ops[|ops| - 1])
  }

  /** The clock never runs backwards, within an operation or between two. */
  ghost predicate ClockOk<V>(ops: seq<Op<V>>) {
    && (forall i | 0 <= i < |ops| :: ops[i].Start() <= ops[i].End())
    && (forall i, j | 0 <= i < j < |ops| :: ops[i].End() <= ops[j].Start())
  }

  ghost predicate KeysNonEmpty<V>(ops: seq<Op<V>>) {
    forall i | 0 <= i < |ops| && ops[i].SetOp? :: ops[i].key != ""
  }

  predicate Removes<V>(op: Op<V>, k: Key) {
    op.ClearOp? || (op.DeleteOp? && op.key == k)
  }

  /** The last operation that set `k`, or |ops| when none did or `k` was removed after it. */
  function LastKept<V>(ops: seq<Op<V>>, k: Key): (i: nat)
    ensures i <= |ops|
    ensures i < |ops| ==> ops[i].SetOp? && ops[i].key == k
    ensures i < |ops| ==> forall j | i < j < |ops| :: !(ops[j].SetOp? && ops[j].key == k) && !Removes(ops[j], k)
  {
    if ops == [] then 0
    else
      var n := |ops| - 1;
      if ops[n].SetOp? && ops[n].key == k then n
      else if Removes(ops[n], k) then |ops|
      else
        var i := LastKept(ops[..n], k);
        if i < n then i else |ops|
  }

  /** The keys set after operation `i` and not removed since. */
  ghost function KeysHeldAfter<V>(ops: seq<Op<V>>, i: nat): set<Key> {
    if |ops| <= i + 1 then {}
    else
      var op, before := ops[|ops| - 1], KeysHeldAfter(ops[..|ops| - 1], i);
      match op
      case SetOp(k, _, _) => before + {k}
      case DeleteOp(k, _) => before - {k}
      case ClearOp(_) => {}
      case GetOp(_, _, _) => before
      case SizeOp(_) => before
  }

  /** After operation `i` and after every later one, fewer than `max` other keys set since are held. */
  ghost predicate NeverCrowded<V>(ops: seq<Op<V>>, i: nat, max: nat) {
    |ops| <= i || (NeverCrowded(ops[..|ops| - 1], i, max) && |KeysHeldAfter(ops, i)| < max)
  }

  // ---------------------------------------------------------------------------
  // A cache that only forgets what is deleted
  // ---------------------------------------------------------------------------

  function Push<V>(cfg: Config, all: Entries<V>, op: Op<V>): Entries<V> {
    match op
    case SetOp(k, v, t) => InsertionMap.Delete(all, k) + [Pair(k, Entry(t, t + cfg.ttlMs, v))]
    case DeleteOp(k, _) => InsertionMap.Delete(all, k)
    case ClearOp(_) => []
    case GetOp(_, _, _) => all
    case SizeOp(_) => all
  }

  /** What an unbounded cache that never expired anything would hold. */
  function Recency<V>(cfg: Config, ops: seq<Op<V>>): Entries<V> {
    if ops == [] then [] else Push(cfg, Recency(cfg, ops[..|ops| - 1]), ops[|ops| - 1])
  }

  /** The keys in front of the last `max` entries. */
  ghost function Front<V>(all: Entries<V>, max: nat): set<Key> {
    set i | 0 <= i < |all| - max :: all[i].key
  }

  ghost function PushedOut<V>(cfg: Config, gone: set<Key>, all': Entries<V>, op: Op<V>): set<Key> {
    match op
    case SetOp(k, _, _) => (gone - {k}) + Front(all', cfg.maxEntries)
    case DeleteOp(k, _) => gone - {k}
    case ClearOp(_) => {}
    case GetOp(_, _, _) => gone
    case SizeOp(_) => gone
  }

  /** The keys of the unbounded cache that were crowded out of the bounded one. */
  ghost function Gone<V>(cfg: Config, ops: seq<Op<V>>): set<Key> {
    if ops == [] then {}
    else PushedOut(cfg, Gone(cfg, ops[..|ops| - 1]), Recency(cfg, ops), ops[|ops| - 1])
  }

  /** The cache is the unbounded one without a prefix of entries that expired or were crowded out. */
  ghost predicate IsTail<V>(m: Entries<V>, all: Entries<V>, max: nat, gone: set<Key>, now: int, cut: nat) {
    && cut <= |all| && m == all[cut..]
    && |m| <= max
    && (forall i | 0 <= i < cut :: all[i].value.expiresAt <= now || all[i].key in gone)
    && (forall i | cut <= i < |all| :: all[i].key !in gone)
  }

  ghost predicate Aging<V>(all: Entries<V>) {
    && Distinct(all)
    && (forall i, j | 0 <= i < j < |all| :: all[i].value.expiresAt <= all[j].value.expiresAt)
  }

  lemma {:induction false} LiveOfAging<V>(m: Entries<V>, now: int) returns (cut: nat)
    requires forall i, j | 0 <= i < j < |m| :: m[i].value.expiresAt <= m[j].value.expiresAt
    ensures cut <= |m| && Live(m, now) == m[cut..]
    ensures forall i | 0 <= i < |m| :: m[i].value.expiresAt <= now <==> i < cut
  {
    if m == [] {
      cut := 0;
    } else if m[0].value.expiresAt <= now {
      cut := LiveOfAging(m[1..], now);
      cut := cut + 1;
      assert forall i | 1 <= i < |m| :: m[i] == m[1..][i - 1];
    } else {
      cut := LiveOfAging(m[1..], now);
      assert |m| > 1 ==> m[1] == m[1..][0];
      assert [m[0]] + m[1..] == m;
    }
  }

  /** If the loop restores the bound, it has dropped what was too much from the front. */
  lemma {:induction false} BoundedWithinBound<V>(m: Entries<V>, max: nat)
    requires |Bounded(m, max)| <= max
    ensures Bounded(m, max) == if |m| > max then m[|m| - max..] else m
  {
    if |m| > max {
      BoundedWithinBound(m[1..], max);
    }
  }

  lemma PruneKeepsTail<V>(m: Entries<V>, all: Entries<V>, max: nat, gone: set<Key>, before: int, now: int, cut: nat)
    returns (cut': nat)
    requires Aging(all) && IsTail(m, all, max, gone, before, cut) && before <= now
    ensures IsTail(Live(m, now), all, max, gone, now, cut')
    ensures forall i | cut' <= i < |all| :: all[i].value.expiresAt > now
  {
    var c := LiveOfAging(m, now);
    cut' := cut + c;
    forall i | 0 <= i < cut'
      ensures all[i].value.expiresAt <= now || all[i].key in gone
    {
      if i >= cut { assert all[i] == m[i - cut]; }
    }
    forall i | cut' <= i < |all|
      ensures all[i].value.expiresAt > now
    {
      assert all[i] == m[i - cut];
    }
  }

  lemma IndexInTail<V>(all: Entries<V>, cut: nat, k: Key)
    requires Distinct(all) && cut <= |all|
    ensures var i := IndexOf(all, k);
      IndexOf(all[cut..], k) == if i < cut then |all| - cut else i - cut
  {
    var i, m := IndexOf(all, k), all[cut..];
    if i < cut {
      forall j | 0 <= j < |m|
        ensures m[j].key != k
      {
        assert m[j] == all[cut + j];
      }
    } else if i < |all| {
      assert m[i - cut] == all[i];
      IndexIsUnique(m, k, i - cut);
    }
  }

  /** The place in `all` without `k` where the tail that started at `cut` starts now. */
  function CutAfterDelete<V>(all: Entries<V>, cut: nat, k: Key): nat {
    if IndexOf(all, k) < cut then cut - 1 else cut
  }

  lemma DeleteFromTail<V>(all: Entries<V>, cut: nat, k: Key)
    requires Distinct(all) && cut <= |all|
    ensures CutAfterDelete(all, cut, k) <= |Delete(all, k)|
    ensures Delete(all[cut..], k) == Delete(all, k)[CutAfterDelete(all, cut, k)..]
  {
    IndexInTail(all, cut, k);
    var tail, rest, c := Delete(all[cut..], k), Delete(all, k), CutAfterDelete(all, cut, k);
    assert |tail| == |rest| - c;
    forall j | 0 <= j < |tail|
      ensures tail[j] == rest[c + j]
    {
      DeleteAt(all[cut..], k, j);
      DeleteAt(all, k, c + j);
    }
  }

  lemma DeleteKeepsAging<V>(all: Entries<V>, k: Key)
    requires Aging(all)
    ensures Aging(Delete(all, k)) && !Has(Delete(all, k), k)
    ensures forall p | p in Delete(all, k) :: p in all
  {
    DeleteKeepsDistinct(all, k);
  }

  lemma AppendKeepsAging<V>(m: Entries<V>, k: Key, e: Entry<V>)
    requires Aging(m) && !Has(m, k)
    requires forall i | 0 <= i < |m| :: m[i].value.expiresAt <= e.expiresAt
    ensures Aging(m + [Pair(k, e)])
  {
  }

  /** Deleting a key from both keeps the one a tail of the other. */
  lemma DeleteKeepsTail<V>(m: Entries<V>, all: Entries<V>, max: nat, gone: set<Key>, now: int, cut: nat, k: Key)
    requires Aging(all) && IsTail(m, all, max, gone, now, cut)
    ensures IsTail(Delete(m, k), Delete(all, k), max, gone - {k}, now, CutAfterDelete(all, cut, k))
  {
    DeleteFromTail(all, cut, k);
    DeleteKeepsAging(all, k);
    var rest, c := Delete(all, k), CutAfterDelete(all, cut, k);
    forall i | 0 <= i < |rest|
      ensures i < c ==> rest[i].value.expiresAt <= now || rest[i].key in gone - {k}
      ensures i >= c ==> rest[i].key !in gone
    {
      DeleteAt(all, k, i);
      AbsentAt(rest, k, i);
    }
  }

  lemma AbsentAt<V>(m: Entries<V>, k: Key, i: nat)
    requires !Has(m, k) && i < |m|
    ensures m[i].key != k
  {
  }

  lemma SetKeepsTail<V>(cfg: Config, m: Entries<V>, all: Entries<V>, gone: set<Key>, now: int, cut: nat, k: Key, v: V)
    returns (cut': nat)
    requires Aging(all) && IsTail(m, all, cfg.maxEntries, gone, now, cut) && NotAhead(cfg, all, now)
    requires |Bounded(Delete(m, k) + [Pair(k, Entry(now, now + cfg.ttlMs, v))], cfg.maxEntries)| <= cfg.maxEntries
    ensures var e := Pair(k, Entry(now, now + cfg.ttlMs, v)); var all' := Delete(all, k) + [e];
      && Aging(all')
      && IsTail(Bounded(Delete(m, k) + [e], cfg.maxEntries), all', cfg.maxEntries,
                (gone - {k}) + Front(all', cfg.maxEntries), now, cut')
  {
    var e := Entry(now, now + cfg.ttlMs, v);
    DeleteKeepsAging(all, k);
    AppendKeepsAging(Delete(all, k), k, e);
    DeleteKeepsTail(m, all, cfg.maxEntries, gone, now, cut, k);
    cut' := AppendToTail(Delete(all, k), CutAfterDelete(all, cut, k), cfg.maxEntries, gone - {k}, now, Pair(k, e));
  }

  /** A tail of `rest` that gets one more entry and is cut to the bound is a tail of `rest` with that entry. */
  lemma AppendToTail<V>(rest: Entries<V>, c: nat, max: nat, gone: set<Key>, now: int, e: Pair<Key, Entry<V>>)
    returns (cut: nat)
    requires c <= |rest| && Aging(rest + [e]) && IsTail(rest[c..], rest, max, gone, now, c) && e.key !in gone
    requires |Bounded(rest[c..] + [e], max)| <= max
    ensures IsTail(Bounded(rest[c..] + [e], max), rest + [e], max, gone + Front(rest + [e], max), now, cut)
  {
    var all, m := rest + [e], rest[c..] + [e];
    assert m == all[c..];
    BoundedWithinBound(m, max);
    cut := if |m| > max then |all| - max else c;
    assert |m| > max ==> m[|m| - max..] == all[cut..];
    forall i | 0 <= i < |all|
      ensures i < cut ==> all[i].value.expiresAt <= now || all[i].key in gone + Front(all, max)
      ensures i >= cut ==> all[i].key !in gone + Front(all, max)
    {
      FrontAt(all, max, i);
      assert i < |rest| ==> all[i] == rest[i];
    }
  }

  lemma FrontAt<V>(all: Entries<V>, max: nat, i: nat)
    requires Distinct(all) && i < |all|
    ensures all[i].key in Front(all, max) <==> i < |all| - max
  {
    if all[i].key in Front(all, max) {
      var j :| 0 <= j < |all| - max && all[j].key == all[i].key;
      assert i == j;
    }
  }

  lemma {:induction false} LiveAppend<V>(a: Entries<V>, b: Entries<V>, now: int)
    ensures Live(a + b, now) == Live(a, now) + Live(b, now)
  {
    if a == [] {
      assert a + b == b;
    } else {
      assert (a + b)[1..] == a[1..] + b;
      LiveAppend(a[1..], b, now);
    }
  }

  /** Removing an entry that has expired makes no difference to what is left after pruning. */
  lemma LiveWithoutExpired<V>(m: Entries<V>, k: Key, now: int)
    requires Has(m, k) && m[IndexOf(m, k)].value.expiresAt <= now
    ensures Live(Delete(m, k), now) == Live(m, now)
  {
    var i := IndexOf(m, k);
    LiveAppend(m[..i], m[i + 1..], now);
    LiveAppend(m[..i], m[i..], now);
    assert m[..i] + m[i..] == m;
    assert m[i..][1..] == m[i + 1..];
  }

  lemma {:induction false} LiveIsPart<V>(m: Entries<V>, now: int)
    ensures forall p | p in Live(m, now) :: p in m && p.value.expiresAt > now
    ensures Distinct(m) ==> Distinct(Live(m, now))
  {
    if m != [] {
      LiveIsPart(m[1..], now);
      if Distinct(m) && m[0].value.expiresAt > now {
        forall j | 0 <= j < |Live(m[1..], now)|
          ensures Live(m[1..], now)[j].key != m[0].key
        {
          assert Live(m[1..], now)[j] in m[1..];
        }
      }
    }
  }

  /** Deleting a key and pruning may change places. */
  lemma LiveOfDelete<V>(m: Entries<V>, k: Key, now: int)
    requires Distinct(m)
    ensures Live(Delete(m, k), now) == Delete(Live(m, now), k)
  {
    if Has(m, k) {
      var i := IndexOf(m, k);
      var a, x, b := Live(m[..i], now), Live([m[i]], now), Live(m[i + 1..], now);
      LiveAppend(m[..i], m[i + 1..], now);
      LiveAppend(m[..i], [m[i]] + m[i + 1..], now);
      LiveAppend([m[i]], m[i + 1..], now);
      assert m[..i] + ([m[i]] + m[i + 1..]) == m;
      SplitAtKey(m, k);
      AbsentAfterPruning(m[..i], k, now);
      AbsentAfterPruning(m[i + 1..], k, now);
      DeleteBetween(a, x, b, k);
    } else {
      AbsentAfterPruning(m, k, now);
    }
  }

  lemma AbsentAfterPruning<V>(m: Entries<V>, k: Key, now: int)
    requires !Has(m, k)
    ensures !Has(Live(m, now), k)
  {
    LiveIsPart(m, now);
    forall i | 0 <= i < |Live(m, now)|
      ensures Live(m, now)[i].key != k
    {
      assert Live(m, now)[i] in m;
    }
  }

  lemma DeleteBetween<V>(a: Entries<V>, x: Entries<V>, b: Entries<V>, k: Key)
    requires !Has(a, k) && !Has(b, k) && (x == [] || (|x| == 1 && x[0].key == k))
    ensures Delete(a + (x + b), k) == a + b
  {
    IndexBehind(a, x + b, k);
    if x == [] {
      assert x + b == b;
    } else {
      assert (x + b)[0].key == k;
      assert (a + (x + b))[..|a|] == a && (a + (x + b))[|a| + 1..] == b;
    }
  }

  lemma ClockOkBefore<V>(ops: seq<Op<V>>)
    requires ops != [] && ClockOk(ops)
    ensures var before := ops[..|ops| - 1];
      ClockOk(before) && (before != [] ==> before[|before| - 1].End() <= ops[|ops| - 1].Start())
  {
  }

  lemma PrefixClockOk<V>(ops: seq<Op<V>>, n: nat)
    requires n <= |ops| && ClockOk(ops)
    ensures ClockOk(ops[..n])
  {
  }

  // ---------------------------------------------------------------------------
  // Within the bound
  // ---------------------------------------------------------------------------

  /** No operation of the run leaves more entries than there may be. */
  ghost predicate BoundAlways<V>(cfg: Config, ops: seq<Op<V>>) {
    forall n | 0 <= n <= |ops| :: |Run(cfg, ops[..n])| <= cfg.maxEntries
  }

  lemma BoundBefore<V>(cfg: Config, ops: seq<Op<V>>, n: nat)
    requires n <= |ops| && BoundAlways(cfg, ops)
    ensures BoundAlways(cfg, ops[..n])
    ensures |Run(cfg, ops[..n])| <= cfg.maxEntries
  {
    assert forall i | 0 <= i <= n :: ops[..n][..i] == ops[..i];
  }

  ghost predicate NamedKeys<V>(m: Entries<V>) {
    forall p | p in m :: p.key != ""
  }

  lemma {:induction false} LiveIsNoLonger<V>(m: Entries<V>, now: int)
    ensures |Live(m, now)| <= |m|
  {
    if m != [] { LiveIsNoLonger(m[1..], now); }
  }

  lemma {:induction false} BoundedNamedKeys<V>(m: Entries<V>, max: nat)
    requires NamedKeys(m)
    ensures NamedKeys(Bounded(m, max)) && |Bounded(m, max)| <= max
  {
    if |m| > max {
      assert m[0] in m && forall p | p in m[1..] :: p in m;
      BoundedNamedKeys(m[1..], max);
    }
  }

  lemma DeletedIsPart<V>(m: Entries<V>, k: Key)
    ensures |Delete(m, k)| <= |m| && forall p | p in Delete(m, k) :: p in m
  {
  }

  /** Without the empty key every operation leaves the cache within its bound. */
  lemma {:induction false} NamedKeysBound<V>(cfg: Config, ops: seq<Op<V>>)
    requires KeysNonEmpty(ops)
    ensures NamedKeys(Run(cfg, ops)) && |Run(cfg, ops)| <= cfg.maxEntries && BoundAlways(cfg, ops)
  {
    if ops == [] {
      assert ops[..0] == ops;
    } else {
      var before, op := ops[..|ops| - 1], ops[|ops| - 1];
      NamedKeysBound(cfg, before);
      StepKeepsNamedKeys(cfg, Run(cfg, before), op);
      BoundExtends(cfg, ops);
    }
  }

  lemma StepKeepsNamedKeys<V>(cfg: Config, m: Entries<V>, op: Op<V>)
    requires NamedKeys(m) && |m| <= cfg.maxEntries && (op.SetOp? ==> op.key != "")
    ensures NamedKeys(Step(cfg, m, op)) && |Step(cfg, m, op)| <= cfg.maxEntries
  {
    match op
    case SetOp(k, v, t) =>
      LiveIsPart(m, t);
      DeletedIsPart(Live(m, t), k);
      BoundedNamedKeys(Delete(Live(m, t), k) + [Pair(k, Entry(t, t + cfg.ttlMs, v))], cfg.maxEntries);
    case GetOp(k, t, _) =>
      LiveIsPart(m, t);
      LiveIsNoLonger(m, t);
      DeletedIsPart(Live(m, t), k);
    case SizeOp(t) =>
      LiveIsPart(m, t);
      LiveIsNoLonger(m, t);
    case DeleteOp(k, _) => DeletedIsPart(m, k);
    case ClearOp(_) =>
  }

  // ---------------------------------------------------------------------------
  // Every run
  // ---------------------------------------------------------------------------

  /** What every step keeps: the bound, and the unexpired entries being a tail of the unbounded cache's. */
  ghost predicate Tailed<V>(cfg: Config, m: Entries<V>, all: Entries<V>, gone: set<Key>, now: int, cut: nat) {
    && |m| <= cfg.maxEntries && Distinct(m) && Aging(all)
    && IsTail(Live(m, now), all, cfg.maxEntries, gone, now, cut)
    && NotAhead(cfg, all, now)
  }

  ghost predicate NotAhead<V>(cfg: Config, all: Entries<V>, now: int) {
    forall i | 0 <= i < |all| :: all[i].value.expiresAt <= now + cfg.ttlMs
  }

  lemma RestDistinct<V>(m: Entries<V>, n: nat)
    requires Distinct(m) && n <= |m|
    ensures Distinct(m[n..])
  {
  }

  /** A tail is tailed once it is looked at later. */
  lemma TailStaysTailed<V>(cfg: Config, m: Entries<V>, all: Entries<V>, gone: set<Key>, before: int, now: int,
                           cut0: nat)
    returns (cut: nat)
    requires Aging(all) && IsTail(m, all, cfg.maxEntries, gone, before, cut0) && before <= now &&
        NotAhead(cfg, all, before)
    ensures Tailed(cfg, m, all, gone, now, cut)
  {
    cut := PruneKeepsTail(m, all, cfg.maxEntries, gone, before, now, cut0);
    RestDistinct(all, cut0);
  }

  /** The cache, the unbounded one and the keys crowded out, after a write. */
  ghost predicate Wrote<V>(cfg: Config, live: Entries<V>, all: Entries<V>, gone: set<Key>, e: Pair<Key, Entry<V>>,
                           live': Entries<V>, all': Entries<V>, gone': set<Key>) {
    && live' == Bounded(Delete(live, e.key) + [e], cfg.maxEntries)
    && all' == Delete(all, e.key) + [e]
    && gone' == (gone - {e.key}) + Front(all', cfg.maxEntries)
  }

  lemma WriteKeepsTail<V>(cfg: Config, live: Entries<V>, all: Entries<V>, gone: set<Key>, t: int, now: int,
                          cut0: nat, k: Key, v: V, live': Entries<V>, all': Entries<V>, gone': set<Key>)
    returns (cut: nat)
    requires Aging(all) && NotAhead(cfg, all, t) && t <= now && IsTail(live, all, cfg.maxEntries, gone, t, cut0)
    requires Wrote(cfg, live, all, gone, Pair(k, Entry(t, t + cfg.ttlMs, v)), live', all', gone')
    requires |live'| <= cfg.maxEntries
    ensures Tailed(cfg, live', all', gone', now, cut)
  {
    cut := SetKeepsTail(cfg, live, all, gone, t, cut0, k, v);
    PushNotAhead(cfg, all, k, Pair(k, Entry(t, t + cfg.ttlMs, v)), t);
    cut := TailStaysTailed(cfg, live', all', gone', t, now, cut);
  }

  lemma DeleteNotAhead<V>(cfg: Config, all: Entries<V>, k: Key, t: int)
    requires NotAhead(cfg, all, t)
    ensures NotAhead(cfg, Delete(all, k), t)
  {
    forall i | 0 <= i < |Delete(all, k)|
      ensures Delete(all, k)[i].value.expiresAt <= t + cfg.ttlMs
    {
      DeleteAt(all, k, i);
    }
  }

  lemma PushNotAhead<V>(cfg: Config, all: Entries<V>, k: Key, e: Pair<Key, Entry<V>>, t: int)
    requires NotAhead(cfg, all, t) && e.value.expiresAt == t + cfg.ttlMs
    ensures NotAhead(cfg, Delete(all, k) + [e], t)
  {
    DeleteNotAhead(cfg, all, k, t);
  }

  lemma ReadKeepsTail<V>(cfg: Config, live: Entries<V>, all: Entries<V>, gone: set<Key>, k: Key, t1: int, t2: int,
                         now: int, cut0: nat)
    returns (cut: nat)
    requires Aging(all) && NotAhead(cfg, all, t1) && IsTail(live, all, cfg.maxEntries, gone, t1, cut0) &&
        t1 <= t2 <= now
    ensures var after := if Has(live, k) && live[IndexOf(live, k)].value.expiresAt <= t2 then Delete(live, k) else live;
      Tailed(cfg, after, all, gone, now, cut)
  {
    cut := TailStaysTailed(cfg, live, all, gone, t1, now, cut0);
    DeleteKeepsDistinct(live, k);
    if Has(live, k) && live[IndexOf(live, k)].value.expiresAt <= t2 {
      LiveWithoutExpired(live, k, now);
    }
  }

  lemma RemovalKeepsTail<V>(cfg: Config, m: Entries<V>, all: Entries<V>, gone: set<Key>, k: Key, t: int, now: int,
                            cut0: nat)
    returns (cut: nat)
    requires Tailed(cfg, m, all, gone, t, cut0) && t <= now
    ensures Tailed(cfg, Delete(m, k), Delete(all, k), gone - {k}, now, cut)
  {
    LiveOfDelete(m, k, now);
    DeleteKeepsDistinct(m, k);
    DeleteKeepsAging(all, k);
    DeleteNotAhead(cfg, all, k, t);
    var c := PruneKeepsTail(Live(m, t), all, cfg.maxEntries, gone, t, now, cut0);
    LiveTwice(m, t, now);
    DeleteKeepsTail(Live(m, now), all, cfg.maxEntries, gone, now, c, k);
    cut := CutAfterDelete(all, c, k);
  }

  /** Pruning now leaves what pruning earlier and then now leaves. */
  lemma {:induction false} LiveTwice<V>(m: Entries<V>, before: int, now: int)
    requires before <= now
    ensures Live(Live(m, before), now) == Live(m, now)
  {
    if m != [] { LiveTwice(m[1..], before, now); }
  }

  /** The specification functions at a write, so that callers need not unfold them. */
  lemma SetUnfolds<V>(cfg: Config, m: Entries<V>, all: Entries<V>, gone: set<Key>, op: Op<V>)
    requires op.SetOp?
    ensures Wrote(cfg, Live(m, op.now), all, gone, Pair(op.key, Entry(op.now, op.now + cfg.ttlMs, op.value)),
                  Step(cfg, m, op), Push(cfg, all, op), PushedOut(cfg, gone, Push(cfg, all, op), op))
  {
  }

  lemma SetKeepsTailed<V>(cfg: Config, m: Entries<V>, all: Entries<V>, gone: set<Key>, op: Op<V>, now: int, cut0: nat)
    returns (cut: nat)
    requires op.SetOp? && op.now <= now && |Step(cfg, m, op)| <= cfg.maxEntries
    requires Aging(all) && NotAhead(cfg, all, op.now)
    requires IsTail(Live(m, op.now), all, cfg.maxEntries, gone, op.now, cut0)
    ensures Tailed(cfg, Step(cfg, m, op), Push(cfg, all, op), PushedOut(cfg, gone, Push(cfg, all, op), op), now, cut)
  {
    SetUnfolds(cfg, m, all, gone, op);
    cut := WriteKeepsTail(cfg, Live(m, op.now), all, gone, op.now, now, cut0, op.key, op.value,
                          Step(cfg, m, op), Push(cfg, all, op), PushedOut(cfg, gone, Push(cfg, all, op), op));
  }

  lemma GetKeepsTailed<V>(cfg: Config, m: Entries<V>, all: Entries<V>, gone: set<Key>, op: Op<V>, now: int, cut0: nat)
    returns (cut: nat)
    requires op.GetOp? && op.t1 <= op.t2 <= now && Tailed(cfg, m, all, gone, op.t1, cut0)
    ensures Tailed(cfg, Step(cfg, m, op), all, gone, now, cut)
  {
    cut := ReadKeepsTail(cfg, Live(m, op.t1), all, gone, op.key, op.t1, op.t2, now, cut0);
  }

  lemma StepKeepsTail<V>(cfg: Config, m: Entries<V>, all: Entries<V>, gone: set<Key>, op: Op<V>, now: int, cut0: nat)
    returns (cut: nat)
    requires Tailed(cfg, m, all, gone, op.Start(), cut0) && |Step(cfg, m, op)| <= cfg.maxEntries
    requires op.Start() <= op.End() <= now
    ensures Tailed(cfg, Step(cfg, m, op), Push(cfg, all, op), PushedOut(cfg, gone, Push(cfg, all, op), op), now, cut)
  {
    match op
    case SetOp(_, _, _) => cut := SetKeepsTailed(cfg, m, all, gone, op, now, cut0);
    case GetOp(_, _, _) => cut := GetKeepsTailed(cfg, m, all, gone, op, now, cut0);
    case SizeOp(t) => cut := TailStaysTailed(cfg, Live(m, t), all, gone, t, now, cut0);
    case DeleteOp(k, t) => cut := RemovalKeepsTail(cfg, m, all, gone, k, t, now, cut0);
    case ClearOp(t) => cut := 0;
  }

  /**
   As long as no operation leaves too many entries, the unexpired entries of the cache are the
   unexpired entries of the unbounded cache that were not crowded out.
   */
  lemma {:induction false} RunIsTail<V>(cfg: Config, ops: seq<Op<V>>, now: int) returns (cut: nat)
    requires ClockOk(ops) && BoundAlways(cfg, ops)
    requires ops != [] ==> ops[|ops| - 1].End() <= now
    ensures Tailed(cfg, Run(cfg, ops), Recency(cfg, ops), Gone(cfg, ops), now, cut)
  {
    if ops == [] {
      cut := 0;
    } else {
      var before, op := ops[..|ops| - 1], ops[|ops| - 1];
      ClockOkBefore(ops);
      BoundBefore(cfg, ops, |before|);
      BoundBefore(cfg, ops, |ops|);
      assert ops[..|ops|] == ops;
      cut := RunIsTail(cfg, before, op.Start());
      cut := StepKeepsTail(cfg, Run(cfg, before), Recency(cfg, before), Gone(cfg, before), op, now, cut);
    }
  }

  // ---------------------------------------------------------------------------
  // The unbounded cache and the history
  // ---------------------------------------------------------------------------

  /** The entry `k` was last written with and still has. */
  function Written<V>(cfg: Config, ops: seq<Op<V>>, k: Key): Option<Entry<V>> {
    var i := LastKept(ops, k);
    if i < |ops| then Some(Entry(ops[i].now, ops[i].now + cfg.ttlMs, ops[i].value)) else None
  }

  /** `all` has the entry `e` for `k`, and exactly the keys `behind` after it. */
  ghost predicate Holds<V>(all: Entries<V>, k: Key, e: Option<Entry<V>>, behind: set<Key>) {
    if e.None? then !Has(all, k)
    else Has(all, k) && all[IndexOf(all, k)].value == e.value && Keys(all[IndexOf(all, k) + 1..]) == behind
  }

  /** The unbounded cache holds every key's last write, and after it the keys written since and kept. */
  ghost predicate Remembers<V>(cfg: Config, all: Entries<V>, ops: seq<Op<V>>, k: Key) {
    Holds(all, k, Written(cfg, ops, k), KeysHeldAfter(ops, LastKept(ops, k)))
  }

  /** How one more operation, other than a write or removal of `k`, changes what the history says about `k`. */
  lemma WrittenBefore<V>(cfg: Config, ops: seq<Op<V>>, k: Key)
    requires ops != []
    ensures var op, before := ops[|ops| - 1], ops[..|ops| - 1];
      if op.SetOp? && op.key == k then LastKept(ops, k) == |before| && KeysHeldAfter(ops, |before|) == {}
      else if Removes(op, k) then LastKept(ops, k) == |ops|
      else
        && Written(cfg, ops, k) == Written(cfg, before, k)
        && (Written(cfg, ops, k).Some? ==>
              && LastKept(ops, k) == LastKept(before, k)
              && KeysHeldAfter(ops, LastKept(ops, k)) == HeldAfter(KeysHeldAfter(before, LastKept(before, k)), op))
  {
  }

  ghost function HeldAfter<V>(held: set<Key>, op: Op<V>): set<Key> {
    match op
    case SetOp(k, _, _) => held + {k}
    case DeleteOp(k, _) => held - {k}
    case ClearOp(_) => {}
    case GetOp(_, _, _) => held
    case SizeOp(_) => held
  }

  lemma {:induction false} RecencyIsHistory<V>(cfg: Config, ops: seq<Op<V>>, k: Key)
    ensures Distinct(Recency(cfg, ops)) && Remembers(cfg, Recency(cfg, ops), ops, k)
  {
    if ops != [] {
      RecencyIsHistory(cfg, ops[..|ops| - 1], k);
      PushKeepsDistinct(cfg, Recency(cfg, ops[..|ops| - 1]), ops[|ops| - 1]);
      PushRemembers(cfg, Recency(cfg, ops[..|ops| - 1]), ops, k);
    }
  }

  lemma PushRemembers<V>(cfg: Config, all: Entries<V>, ops: seq<Op<V>>, k: Key)
    requires ops != [] && Distinct(all) && Remembers(cfg, all, ops[..|ops| - 1], k)
    ensures Remembers(cfg, Push(cfg, all, ops[|ops| - 1]), ops, k)
  {
    var op, before := ops[|ops| - 1], ops[..|ops| - 1];
    WrittenBefore(cfg, ops, k);
    if op.SetOp? && op.key == k {
      PushOwn(all, k, Entry(op.now, op.now + cfg.ttlMs, op.value));
    } else if Removes(op, k) {
      DeleteKeepsDistinct(all, k);
    } else {
      PushHolds(cfg, all, op, k, Written(cfg, before, k), KeysHeldAfter(before, LastKept(before, k)));
    }
  }

  lemma PushHolds<V>(cfg: Config, all: Entries<V>, op: Op<V>, k: Key, ek: Option<Entry<V>>, behind: set<Key>)
    requires Distinct(all) && Holds(all, k, ek, behind)
    requires !(op.SetOp? && op.key == k) && !Removes(op, k)
    ensures Holds(Push(cfg, all, op), k, ek, HeldAfter(behind, op))
  {
    if op.SetOp? {
      PushOther(cfg, all, op, k, ek, behind);
    } else if op.DeleteOp? {
      DeleteHolds(all, op.key, k, ek, behind);
    } else {
      assert Push(cfg, all, op) == all && HeldAfter(behind, op) == behind;
    }
  }

  lemma PushOther<V>(cfg: Config, all: Entries<V>, op: Op<V>, k: Key, ek: Option<Entry<V>>, behind: set<Key>)
    requires Distinct(all) && Holds(all, k, ek, behind) && op.SetOp? && op.key != k
    ensures Holds(Push(cfg, all, op), k, ek, behind + {op.key})
  {
    RecencyPush(all, op.key, Entry(op.now, op.now + cfg.ttlMs, op.value), k, ek, behind);
  }

  lemma PushOwn<V>(m: Entries<V>, k: Key, e: Entry<V>)
    requires Distinct(m)
    ensures Holds(Delete(m, k) + [Pair(k, e)], k, Some(e), {})
  {
    DeleteKeepsDistinct(m, k);
    IndexBehind(Delete(m, k), [Pair(k, e)], k);
  }

  lemma DeleteHolds<V>(m: Entries<V>, other: Key, k: Key, ek: Option<Entry<V>>, behind: set<Key>)
    requires Distinct(m) && other != k && Holds(m, k, ek, behind)
    ensures Holds(Delete(m, other), k, ek, behind - {other})
  {
    DeleteOther(m, other, k);
  }

  /** Writing another key moves it behind everything else and leaves the order of the rest. */
  lemma RecencyPush<V>(m: Entries<V>, other: Key, e: Entry<V>, k: Key, ek: Option<Entry<V>>, behind: set<Key>)
    requires Distinct(m) && other != k && Holds(m, k, ek, behind)
    ensures Holds(Delete(m, other) + [Pair(other, e)], k, ek, behind + {other})
  {
    DeleteHolds(m, other, k, ek, behind);
    AppendOther(Delete(m, other), other, e, k, ek, behind - {other});
    assert (behind - {other}) + {other} == behind + {other};
  }

  lemma AppendOther<V>(r: Entries<V>, other: Key, e: Entry<V>, k: Key, ek: Option<Entry<V>>, behind: set<Key>)
    requires other != k && Holds(r, k, ek, behind)
    ensures Holds(r + [Pair(other, e)], k, ek, behind + {other})
  {
    if ek.Some? {
      var i := IndexOf(r, k);
      IndexInFront(r, [Pair(other, e)], k);
      assert (r + [Pair(other, e)])[i + 1..] == r[i + 1..] + [Pair(other, e)];
      KeysConcat(r[i + 1..], [Pair(other, e)]);
    } else {
      IndexBehind(r, [Pair(other, e)], k);
    }
  }

  lemma PushKeepsDistinct<V>(cfg: Config, all: Entries<V>, op: Op<V>)
    requires Distinct(all)
    ensures Distinct(Push(cfg, all, op))
  {
    if op.SetOp? || op.DeleteOp? { DeleteKeepsDistinct(all, op.key); }
    if op.SetOp? { AppendKeepsDistinct(Delete(all, op.key), op.key, Entry(op.now, op.now + cfg.ttlMs, op.value)); }
  }

  lemma AppendKeepsDistinct<V>(m: Entries<V>, k: Key, e: Entry<V>)
    requires Distinct(m) && !Has(m, k)
    ensures Distinct(m + [Pair(k, e)])
  {
  }

  // ---------------------------------------------------------------------------
  // Crowded out
  // ---------------------------------------------------------------------------

  /** A key stands in front of the last `max` entries exactly if at least `max` keys stand behind it. */
  lemma FrontExactly<V>(all: Entries<V>, max: nat, k: Key)
    requires Distinct(all)
    ensures k in Front(all, max) <==> Has(all, k) && |Keys(all[IndexOf(all, k) + 1..])| >= max
  {
    var i := IndexOf(all, k);
    if Has(all, k) {
      FrontAt(all, max, i);
      RestDistinct(all, i + 1);
      KeysCount(all[i + 1..]);
    } else {
      forall j | 0 <= j < |all|
        ensures all[j].key != k
      {
        AbsentAt(all, k, j);
      }
    }
  }

  /** Removing keys never crowds. */
  lemma StillNotCrowded<V>(ops: seq<Op<V>>, i: nat, max: nat)
    requires i < |ops| - 1 && !ops[|ops| - 1].SetOp? && NeverCrowded(ops[..|ops| - 1], i, max)
    ensures NeverCrowded(ops, i, max)
  {
    SubsetSize(KeysHeldAfter(ops, i), KeysHeldAfter(ops[..|ops| - 1], i));
  }

  /** What was crowded out, read off the history. */
  lemma {:induction false} GoneExactly<V>(cfg: Config, ops: seq<Op<V>>, k: Key)
    ensures k in Gone(cfg, ops) <==> LastKept(ops, k) < |ops| && !NeverCrowded(ops, LastKept(ops, k), cfg.maxEntries)
  {
    if ops != [] {
      var op := ops[|ops| - 1];
      GoneExactly(cfg, ops[..|ops| - 1], k);
      RecencyIsHistory(cfg, ops, k);
      if op.SetOp? {
        FrontExactly(Recency(cfg, ops), cfg.maxEntries, k);
        GoneAfterSet(cfg, ops, k);
      } else {
        GoneAfterOther(cfg, ops, k);
      }
    }
  }

  lemma GoneAfterSet<V>(cfg: Config, ops: seq<Op<V>>, k: Key)
    requires ops != [] && ops[|ops| - 1].SetOp?
    requires var before := ops[..|ops| - 1];
      k in Gone(cfg, before) <==>
      LastKept(before, k) < |before| && !NeverCrowded(before, LastKept(before, k), cfg.maxEntries)
    requires Remembers(cfg, Recency(cfg, ops), ops, k)
    requires var all := Recency(cfg, ops);
      k in Front(all, cfg.maxEntries) <==> Has(all, k) && |Keys(all[IndexOf(all, k) + 1..])| >= cfg.maxEntries
    ensures k in Gone(cfg, ops) <==> LastKept(ops, k) < |ops| && !NeverCrowded(ops, LastKept(ops, k), cfg.maxEntries)
  {
    WrittenBefore(cfg, ops, k);
  }

  lemma GoneAfterOther<V>(cfg: Config, ops: seq<Op<V>>, k: Key)
    requires ops != [] && !ops[|ops| - 1].SetOp?
    requires var before := ops[..|ops| - 1];
      k in Gone(cfg, before) <==>
      LastKept(before, k) < |before| && !NeverCrowded(before, LastKept(before, k), cfg.maxEntries)
    ensures k in Gone(cfg, ops) <==> LastKept(ops, k) < |ops| && !NeverCrowded(ops, LastKept(ops, k), cfg.maxEntries)
  {
    var i := LastKept(ops, k);
    WrittenBefore(cfg, ops, k);
    if i < |ops| - 1 && NeverCrowded(ops[..|ops| - 1], i, cfg.maxEntries) {
      StillNotCrowded(ops, i, cfg.maxEntries);
    }
  }

  /**
   What the history says a read of `k` returns: the last value set for `k` if that value was not
   deleted or cleared, is younger than the time to live and at no time since had maxEntries other,
   later set keys beside it, and otherwise nothing.
   */
  ghost predicate ReadsHistory<V>(cfg: Config, ops: seq<Op<V>>, k: Key, t1: int, t2: int) {
    GetResult(Run(cfg, ops), k, t1, t2) ==
      var i := LastKept(ops, k);
      if i < |ops| && t2 - ops[i].now < cfg.ttlMs && NeverCrowded(ops, i, cfg.maxEntries) then Some(ops[i].value)
      else None
  }

  /**
   The cache against its history: after any run of reads, writes, size queries, deletions and clears
   with a clock that never runs backwards, in which no operation left too many entries, a read
   returns what the history says.  Runs without the empty key are of this kind (NamedKeysBound).
   */
  lemma GetMatchesHistory<V>(cfg: Config, ops: seq<Op<V>>, k: Key, t1: int, t2: int)
    requires ClockOk(ops) && BoundAlways(cfg, ops)
    requires ops != [] ==> ops[|ops| - 1].End() <= t1
    requires t1 <= t2
    ensures ReadsHistory(cfg, ops, k, t1, t2)
  {
    var cut := RunIsTail(cfg, ops, t1);
    RecencyIsHistory(cfg, ops, k);
    GoneExactly(cfg, ops, k);
    var behind := KeysHeldAfter(ops, LastKept(ops, k));
    ReadOfTail(cfg, Run(cfg, ops), Recency(cfg, ops), Gone(cfg, ops), cut, k, t1, t2, Written(cfg, ops, k), behind);
  }

  lemma ReadOfTail<V>(cfg: Config, m: Entries<V>, all: Entries<V>, gone: set<Key>, cut: nat, k: Key, t1: int, t2: int,
                      e: Option<Entry<V>>, behind: set<Key>)
    requires Tailed(cfg, m, all, gone, t1, cut) && Holds(all, k, e, behind) && t1 <= t2
    ensures GetResult(m, k, t1, t2) ==
      if e.Some? && e.value.expiresAt > t2 && k !in gone then Some(e.value.value) else None
  {
    InTailExactly(Live(m, t1), all, cfg.maxEntries, gone, t1, cut, k);
    var live := Live(m, t1);
    assert GetResult(m, k, t1, t2) ==
      if Has(live, k) && live[IndexOf(live, k)].value.expiresAt > t2 then Some(live[IndexOf(live, k)].value.value)
      else None;
  }

  /** What a tail has of a key is what the whole has, unless that expired or was crowded out. */
  lemma InTailExactly<V>(live: Entries<V>, all: Entries<V>, max: nat, gone: set<Key>, now: int, cut: nat, k: Key)
    requires Distinct(all) && IsTail(live, all, max, gone, now, cut)
    ensures Has(live, k) ==> Has(all, k) && live[IndexOf(live, k)] == all[IndexOf(all, k)] && k !in gone
    ensures Has(all, k) && all[IndexOf(all, k)].value.expiresAt > now && k !in gone ==> Has(live, k)
  {
    IndexInTail(all, cut, k);
  }

  /** Without deletions and clears, only the keys set since the write count, all together. */
  lemma {:induction false} CrowdingIsFinal<V>(ops: seq<Op<V>>, i: nat, max: nat)
    requires i < |ops| && forall op | op in ops :: !op.DeleteOp? && !op.ClearOp?
    ensures NeverCrowded(ops, i, max) <==> |KeysHeldAfter(ops, i)| < max
  {
    if i < |ops| - 1 {
      var before := ops[..|ops| - 1];
      assert forall op | op in before :: op in ops;
      CrowdingIsFinal(before, i, max);
      assert ops[|ops| - 1] in ops;
      SubsetSize(KeysHeldAfter(before, i), KeysHeldAfter(ops, i));
    }
  }

  // ---------------------------------------------------------------------------
  // The empty key
  // ---------------------------------------------------------------------------

  /**
   The loop that enforces the bound gives up at the empty key: it restores the bound exactly when
   the empty key is not among the entries it would have to drop.
   */
  lemma {:induction false} BoundRestoredExactly<V>(m: Entries<V>, max: nat)
    ensures |Bounded(m, max)| <= max <==> forall i | 0 <= i < |m| - max :: m[i].key != ""
  {
    if |m| > max {
      if m[0].key != "" {
        BoundRestoredExactly(m[1..], max);
        assert forall i | 0 <= i < |m[1..]| :: m[1..][i] == m[i + 1];
        if |Bounded(m, max)| <= max {
          forall i | 0 <= i < |m| - max
            ensures m[i].key != ""
          {
            if i > 0 { assert m[1..][i - 1] == m[i]; }
          }
        }
      } else {
        assert m[0].key == "";
      }
    }
  }

  /** After every operation of the run, a read of any key at any later time returns what the history says. */
  ghost predicate HistoryAlways<V>(cfg: Config, ops: seq<Op<V>>) {
    forall n, k, t1, t2 | 0 <= n <= |ops| && (n > 0 ==> ops[n - 1].End() <= t1) && t1 <= t2 ::
      ReadsHistory(cfg, ops[..n], k, t1, t2)
  }

  /** The first operation that leaves too many entries. */
  ghost predicate Overfull<V>(cfg: Config, ops: seq<Op<V>>, n: int) {
    0 <= n <= |ops| && |Run(cfg, ops[..n])| > cfg.maxEntries
  }

  lemma {:induction false} LeastOverfull<V>(cfg: Config, ops: seq<Op<V>>, n: nat) returns (least: nat)
    requires Overfull(cfg, ops, n)
    ensures Overfull(cfg, ops, least) && forall k | 0 <= k < least :: !Overfull(cfg, ops, k)
  {
    if k :| 0 <= k < n && Overfull(cfg, ops, k) {
      least := LeastOverfull(cfg, ops, k);
    } else {
      least := n;
    }
  }

  lemma FirstOverfull<V>(cfg: Config, ops: seq<Op<V>>) returns (n: nat)
    requires ops != [] && !BoundAlways(cfg, ops)
    ensures 1 <= n <= |ops| && |Run(cfg, ops[..n])| > cfg.maxEntries && BoundAlways(cfg, ops[..n - 1])
  {
    var some: nat :| some <= |ops| && |Run(cfg, ops[..some])| > cfg.maxEntries;
    n := LeastOverfull(cfg, ops, some);
    var before := ops[..n - 1];
    forall k | 0 <= k <= |before|
      ensures |Run(cfg, before[..k])| <= cfg.maxEntries
    {
      assert before[..k] == ops[..k] && !Overfull(cfg, ops, k);
    }
  }

  lemma NoOverfullStart<V>(cfg: Config, ops: seq<Op<V>>)
    ensures ops == [] ==> BoundAlways(cfg, ops)
  {
  }

  lemma BoundExtends<V>(cfg: Config, ops: seq<Op<V>>)
    requires ops != [] && BoundAlways(cfg, ops[..|ops| - 1]) && |Run(cfg, ops)| <= cfg.maxEntries
    ensures BoundAlways(cfg, ops)
  {
    var before := ops[..|ops| - 1];
    forall n | 0 <= n <= |ops|
      ensures |Run(cfg, ops[..n])| <= cfg.maxEntries
    {
      if n < |ops| { assert ops[..n] == before[..n]; } else { assert ops[..n] == ops; }
    }
  }

  /** Only a write can leave too many, and then only because it met the empty key at the front. */
  lemma OverfullExactly<V>(cfg: Config, m: Entries<V>, op: Op<V>)
    requires |m| <= cfg.maxEntries && |Step(cfg, m, op)| > cfg.maxEntries
    ensures op.SetOp?
    ensures var all := Delete(Live(m, op.now), op.key) + [Pair(op.key, Entry(op.now, op.now + cfg.ttlMs, op.value))];
      Step(cfg, m, op) == all && |all| == cfg.maxEntries + 1 && all[0].key == ""
  {
    match op
    case SetOp(k, v, t) =>
      LiveIsNoLonger(m, t);
      DeletedIsPart(Live(m, t), k);
      var all := Delete(Live(m, t), k) + [Pair(k, Entry(t, t + cfg.ttlMs, v))];
      BoundRestoredExactly(all, cfg.maxEntries);
    case GetOp(k, t, _) =>
      LiveIsNoLonger(m, t);
      DeletedIsPart(Live(m, t), k);
    case SizeOp(t) => LiveIsNoLonger(m, t);
    case DeleteOp(k, _) => DeletedIsPart(m, k);
    case ClearOp(_) =>
  }

  /** Then the entry of the empty key is still read, and the history counts it as crowded out. */
  lemma OverfullMisreads<V>(cfg: Config, ops: seq<Op<V>>)
    requires ClockOk(ops) && ops != [] && cfg.ttlMs > 0
    requires BoundAlways(cfg, ops[..|ops| - 1]) && |Run(cfg, ops)| > cfg.maxEntries
    ensures var t := ops[|ops| - 1].End(); !ReadsHistory(cfg, ops, "", t, t)
  {
    var before, op := ops[..|ops| - 1], ops[|ops| - 1];
    ClockOkBefore(ops);
    BoundBefore(cfg, before, |before|);
    assert before[..|before|] == before;
    OverfullExactly(cfg, Run(cfg, before), op);
    var cut := RunIsTail(cfg, before, op.now);
    OverfullTail(cfg, Run(cfg, before), Recency(cfg, before), Gone(cfg, before), cut, op);
    GoneExactly(cfg, ops, "");
  }

  lemma OverfullTail<V>(cfg: Config, m: Entries<V>, all: Entries<V>, gone: set<Key>, cut: nat, op: Op<V>)
    requires op.SetOp? && cfg.ttlMs > 0
    requires Distinct(all) && cut <= |all| && Live(m, op.now) == all[cut..]
    requires |Step(cfg, m, op)| == cfg.maxEntries + 1 && Step(cfg, m, op)[0].key == ""
    requires Step(cfg, m, op) ==
        Delete(Live(m, op.now), op.key) + [Pair(op.key, Entry(op.now, op.now + cfg.ttlMs, op.value))]
    ensures "" in PushedOut(cfg, gone, Push(cfg, all, op), op)
    ensures GetResult(Step(cfg, m, op), "", op.now, op.now).Some?
  {
    var e := Pair(op.key, Entry(op.now, op.now + cfg.ttlMs, op.value));
    SetUnfolds(cfg, m, all, gone, op);
    DeleteFromTail(all, cut, op.key);
    BehindBoundInFront(Delete(all, op.key), CutAfterDelete(all, cut, op.key), e, cfg.maxEntries);
    LiveIsPart(m, op.now);
    DeletedIsPart(Live(m, op.now), op.key);
    FirstIsRead(Delete(Live(m, op.now), op.key), e, op.now);
  }

  lemma BehindBoundInFront<V>(rest: Entries<V>, c: nat, e: Pair<Key, Entry<V>>, max: nat)
    requires c <= |rest| && |rest[c..] + [e]| == max + 1
    ensures (rest[c..] + [e])[0].key in Front(rest + [e], max)
  {
    assert (rest[c..] + [e])[0] == (rest + [e])[c];
  }

  lemma FirstIsRead<V>(live: Entries<V>, e: Pair<Key, Entry<V>>, now: int)
    requires (forall p | p in live :: p.value.expiresAt > now) && e.value.expiresAt > now
    ensures var m := live + [e]; GetResult(m, m[0].key, now, now).Some?
  {
    var m := live + [e];
    assert m[0] in live || m[0] == e;
    assert Live(m, now)[0] == m[0];
  }

  /**
   The cache keeps to its history exactly as long as it keeps its bound: with a positive time to live,
   whatever the keys, all reads after all operations of a run return what the history says if and only
   if no operation of the run left more than maxEntries entries.
   */
  lemma HistoryHoldsExactly<V>(cfg: Config, ops: seq<Op<V>>)
    requires ClockOk(ops) && cfg.ttlMs > 0
    ensures HistoryAlways(cfg, ops) <==> BoundAlways(cfg, ops)
  {
    if BoundAlways(cfg, ops) { BoundKeepsHistory(cfg, ops); } else { OverfullBreaksHistory(cfg, ops); }
  }

  lemma BoundKeepsHistory<V>(cfg: Config, ops: seq<Op<V>>)
    requires ClockOk(ops) && BoundAlways(cfg, ops)
    ensures HistoryAlways(cfg, ops)
  {
    forall n, k, t1, t2 | 0 <= n <= |ops| && (n > 0 ==> ops[n - 1].End() <= t1) && t1 <= t2
      ensures ReadsHistory(cfg, ops[..n], k, t1, t2)
    {
      PrefixReadsHistory(cfg, ops, n, k, t1, t2);
    }
  }

  lemma PrefixReadsHistory<V>(cfg: Config, ops: seq<Op<V>>, n: nat, k: Key, t1: int, t2: int)
    requires ClockOk(ops) && BoundAlways(cfg, ops) && n <= |ops|
    requires (n > 0 ==> ops[n - 1].End() <= t1) && t1 <= t2
    ensures ReadsHistory(cfg, ops[..n], k, t1, t2)
  {
    var before := ops[..n];
    PrefixClockOk(ops, n);
    BoundBefore(cfg, ops, n);
    assert n > 0 ==> before[n - 1] == ops[n - 1];
    GetMatchesHistory(cfg, before, k, t1, t2);
  }

  lemma OverfullBreaksHistory<V>(cfg: Config, ops: seq<Op<V>>)
    requires ClockOk(ops) && cfg.ttlMs > 0 && !BoundAlways(cfg, ops)
    ensures !HistoryAlways(cfg, ops)
  {
    NoOverfullStart(cfg, ops);
    var n := FirstOverfull(cfg, ops);
    PrefixClockOk(ops, n);
    assert ops[..n][..n - 1] == ops[..n - 1];
    OverfullMisreads(cfg, ops[..n]);
  }

  /** A run that leaves the cache over its bound, and in which a key that was crowded out is still read. */
  lemma EmptyKeyBreaksBound(ttl: int) returns (ops: seq<Op<int>>)
    requires ttl > 10
    ensures ClockOk(ops) && var cfg := Config(ttl, 1);
      && |Run(cfg, ops)| == 2
      && !NeverCrowded(ops, LastKept(ops, ""), 1) && GetResult(Run(cfg, ops), "", 3, 3) == Some(7)
  {
    ops := [SetOp("", 7, 1), SetOp("a", 8, 2)];
    EmptyKeyHistory(ops);
    EmptyKeyKept(ttl, ops);
    var m := Run(Config(ttl, 1), ops);
    assert m[1..] == [m[1]] && Live([m[1]], 3) == [m[1]];
    assert Live(m, 3) == m by { assert [m[0]] + [m[1]] == m; }
  }

  lemma EmptyKeyHistory(ops: seq<Op<int>>)
    requires ops == [SetOp("", 7, 1), SetOp("a", 8, 2)]
    ensures LastKept(ops, "") == 0 && !NeverCrowded(ops, 0, 1)
  {
    assert ops[..1] == [SetOp("", 7, 1)] && ops[..2] == ops;
    assert KeysHeldAfter(ops[..1], 0) == {};
    assert KeysHeldAfter(ops[..2], 0) == {"a"};
  }

  lemma EmptyKeyKept(ttl: int, ops: seq<Op<int>>)
    requires ttl > 10 && ops == [SetOp("", 7, 1), SetOp("a", 8, 2)]
    ensures Run(Config(ttl, 1), ops) == [Pair("", Entry(1, 1 + ttl, 7)), Pair("a", Entry(2, 2 + ttl, 8))]
  {
    var cfg := Config(ttl, 1);
    var e, x := Pair("", Entry(1, 1 + ttl, 7)), Pair("a", Entry(2, 2 + ttl, 8));
    var first := ops[..1];
    assert first == [ops[0]] && first[..0] == [];
    assert Run(cfg, first) == Step(cfg, Run(cfg, []), first[0]);
    assert Delete<Key, Entry<int>>([], "") + [e] == [e];
    assert Run(cfg, first) == [e];
    assert Live([e], 2) == [e];
    assert Delete([e], "a") + [x] == [e, x];
    assert Bounded([e, x], 1) == [e, x];
  }
}
