/**
 The oracle's in-memory cache with least-recently-used eviction in batches
 (oracle/src/services/cache.ts, without its Redis path).
 */
module OracleCache {
  import opened InsertionMap
  import opened LastTouch
  import opened Options

  type Key = string
  type Value = string

  datatype Entry = Entry(data: Value, cachedAt: int, expiresAt: int)

  datatype Config = Config(defaultTtlSeconds: int, maxEntries: nat, evictBatchFraction: real)

  type Store = seq<Pair<Key, Entry>>

  // ---------------------------------------------------------------------------
  // Specification
  // ---------------------------------------------------------------------------

  datatype State = State(store: Store, hits: nat, misses: nat, evictions: nat)

  function Ceil(x: real): int { -((-x).Floor) }

  function Max(a: int, b: int): int { if a > b then a else b }

  /** max(1, ceil(maxEntries * evictBatchFraction)) */
  function BatchSize(cfg: Config): nat {
    Max(1, Ceil(cfg.maxEntries as real * cfg.evictBatchFraction))
  }

  function Evicted(cfg: Config, store: Store): nat {
    if BatchSize(cfg) < |store| then BatchSize(cfg) else |store|
  }

  function Evict(cfg: Config, s: State): State {
    State(s.store[Evicted(cfg, s.store)..], s.hits, s.misses, s.evictions + Evicted(cfg, s.store))
  }

  function Lookup(s: State, k: Key, now: int): Option<Value> {
    match InsertionMap.Get(s.store, k)
    case None => None
    case Some(e) => if now > e.expiresAt then None else Some(e.data)
  }

  function Read(s: State, k: Key, now: int): State {
    match InsertionMap.Get(s.store, k)
    case None => s.(misses := s.misses + 1)
    case Some(e) =>
      if now > e.expiresAt then s.(store := Delete(s.store, k), misses := s.misses + 1)
      else s.(store := Delete(s.store, k) + [Pair(k, e)], hits := s.hits + 1)
  }

  function NewEntry(cfg: Config, v: Value, ttl: Option<int>, now: int): Entry {
    Entry(v, now, now + (if ttl.Some? then ttl.value else cfg.defaultTtlSeconds) * 1000)
  }

  function Write(cfg: Config, s: State, k: Key, v: Value, ttl: Option<int>, now: int): State {
    var room :=
      if Has(s.store, k) then s.(store := Delete(s.store, k))
      else if |s.store| >= cfg.maxEntries then Evict(cfg, s)
      else s;
    room.(store := room.store + [Pair(k, NewEntry(cfg, v, ttl, now))])
  }

  function Unexpired(m: Store, now: int): Store {
    if m == [] then []
    else if now > m[0].value.expiresAt then Unexpired(m[1..], now)
    else [m[0]] + Unexpired(m[1..], now)
  }

  function Peek(s: State, k: Key, now: int): State {
    match InsertionMap.Get(s.store, k)
    case Some(e) => if now > e.expiresAt then s.(store := Delete(s.store, k)) else s
    case None => s
  }

  class Cache {
    const cfg: Config
    var store: Store
    var hits: nat
    var misses: nat
    var evictions: nat

    ghost function Model(): State
      reads this
    {
      State(store, hits, misses, evictions)
    }

    constructor (cfg: Config)
      ensures this.cfg == cfg && Model() == State([], 0, 0, 0)
    {
      this.cfg := cfg;
      store, hits, misses, evictions := [], 0, 0, 0;
    }

    method Get(key: Key, now: int) returns (r: Option<Value>)
      modifies this
      ensures Model() == Read(old(Model()), key, now)
      ensures r == Lookup(old(Model()), key, now)
    {
      if !InsertionMap.Has(store, key) {
        misses := misses + 1;
        return None;
      }
      var entry := store[IndexOf(store, key)].value;
      if now > entry.expiresAt {
        store := InsertionMap.Delete(store, key);
        misses := misses + 1;
        return None;
      }
      store := InsertionMap.Delete(store, key);
      store := store + [Pair(key, entry)];
      hits := hits + 1;
      return Some(entry.data);
    }

    method Set(key: Key, value: Value, ttlSeconds: Option<int>, now: int)
      modifies this
      ensures Model() == Write(cfg, old(Model()), key, value, ttlSeconds, now)
    {
      if InsertionMap.Has(store, key) {
        store := InsertionMap.Delete(store, key);
      } else if |store| >= cfg.maxEntries {
        EvictLRUBatch();
      }
      store := store + [Pair(key, NewEntry(cfg, value, ttlSeconds, now))];
    }

    method Delete(key: Key) returns (present: bool)
      modifies this
      ensures Model() == old(Model()).(store := InsertionMap.Delete(old(store), key))
      ensures present == InsertionMap.Has(old(store), key)
    {
      present := InsertionMap.Has(store, key);
      store := InsertionMap.Delete(store, key);
    }

    method Clear()
      modifies this
      ensures Model() == old(Model()).(store := [])
    {
      store := [];
    }

    method Has(key: Key, now: int) returns (present: bool)
      modifies this
      ensures Model() == Peek(old(Model()), key, now)
      ensures present == Lookup(old(Model()), key, now).Some?
    {
      if !InsertionMap.Has(store, key) {
        return false;
      }
      if now > store[IndexOf(store, key)].value.expiresAt {
        store := InsertionMap.Delete(store, key);
        return false;
      }
      return true;
    }

    method EvictLRUBatch()
      modifies this
      ensures Model() == Evict(cfg, old(Model()))
    {
      var batchSize := BatchSize(cfg);
      var evicted := 0;
      while store != [] && evicted < batchSize
        invariant 0 <= evicted <= Evicted(cfg, old(store))
        invariant store == old(store)[evicted..]
        invariant hits == old(hits) && misses == old(misses) && evictions == old(evictions)
        decreases |store|
      {
        store := store[1..];
        evicted := evicted + 1;
      }
      evictions := evictions + evicted;
    }

    method Cleanup(now: int) returns (cleaned: nat)
      modifies this
      ensures Model() == old(Model()).(store := Unexpired(old(store), now))
      ensures cleaned == |old(store)| - |store|
    {
      cleaned := 0;
      var i := 0;
      while i < |store|
        invariant 0 <= i <= |store|
        invariant store[..i] + Unexpired(store[i..], now) == Unexpired(old(store), now)
        invariant cleaned == |old(store)| - |store|
        invariant hits == old(hits) && misses == old(misses) && evictions == old(evictions)
        decreases |store| - i
      {
        var here := store[i..];
        if now > store[i].value.expiresAt {
          store := store[..i] + store[i + 1..];
          cleaned := cleaned + 1;
          assert store[i..] == here[1..];
        } else {
          assert store[..i + 1] + Unexpired(here[1..], now) == store[..i] + ([here[0]] + Unexpired(here[1..], now));
          i := i + 1;
          assert store[i..] == here[1..];
        }
      }
      assert store[..i] == store;
    }
  }

  // ---------------------------------------------------------------------------
  // Runs
  // ---------------------------------------------------------------------------

  datatype Op =
    | GetOp(key: Key, now: int)
    | SetOp(key: Key, value: Value, ttl: Option<int>, now: int)
    | DeleteOp(key: Key)
    | ClearOp
    | HasOp(key: Key, now: int)
    | CleanupOp(now: int)

  function Step(cfg: Config, s: State, op: Op): State {
    match op
    case GetOp(k, now) => Read(s, k, now)
    case SetOp(k, v, ttl, now) => Write(cfg, s, k, v, ttl, now)
    case DeleteOp(k) => s.(store := Delete(s.store, k))
    case ClearOp => s.(store := [])
    case HasOp(k, now) => Peek(s, k, now)
    case CleanupOp(now) => s.(store := Unexpired(s.store, now))
  }

  function Run(cfg: Config, s: State, ops: seq<Op>): State {
    if ops == [] then s else Step(cfg, Run(cfg, s, ops[..|ops| - 1]), ops[|ops| - 1])
  }

  const Empty := State([], 0, 0, 0)

  /** The key an operation touches: the one it writes, or the one it reads successfully. */
  function Touched(s: State, op: Op): Option<Key> {
    match op
    case SetOp(k, _, _, _) => Some(k)
    case GetOp(k, now) => if Lookup(s, k, now).Some? then Some(k) else None
    case _ => None
  }

  /** The keys touched by a run, in order, with repeats. */
  function TouchLog(cfg: Config, s: State, ops: seq<Op>): seq<Key> {
    if ops == [] then []
    else
      var before := ops[..|ops| - 1];
      var t := Touched(Run(cfg, s, before), ops[|ops| - 1]);
      TouchLog(cfg, s, before) + if t.Some? then [t.value] else []
  }

  // ---------------------------------------------------------------------------
  // Size
  // ---------------------------------------------------------------------------

  ghost predicate WithinBound(cfg: Config, s: State) {
    Distinct(s.store) && |s.store| <= Max(1, cfg.maxEntries)
  }

  lemma {:induction false} UnexpiredIsSublist(m: Store, now: int)
    ensures |Unexpired(m, now)| <= |m|
    ensures forall p | p in Unexpired(m, now) :: p in m && now <= p.value.expiresAt
    ensures Distinct(m) ==> Distinct(Unexpired(m, now))
  {
    if m != [] {
      UnexpiredIsSublist(m[1..], now);
      if Distinct(m) && now <= m[0].value.expiresAt {
        var rest := Unexpired(m[1..], now);
        forall j | 0 <= j < |rest|
          ensures rest[j].key != m[0].key
        {
          assert rest[j] in m[1..];
        }
      }
    }
  }

  lemma AppendKeepsDistinct(m: Store, k: Key, e: Entry)
    requires Distinct(m) && !Has(m, k)
    ensures Distinct(m + [Pair(k, e)])
  {
  }

  lemma PushKeepsDistinct(m: Store, k: Key, e: Entry)
    requires Distinct(m)
    ensures Distinct(Delete(m, k) + [Pair(k, e)])
    ensures |Delete(m, k) + [Pair(k, e)]| == if Has(m, k) then |m| else |m| + 1
  {
    DeleteKeepsDistinct(m, k);
    AppendKeepsDistinct(Delete(m, k), k, e);
  }

  lemma WriteKeepsBound(cfg: Config, s: State, k: Key, v: Value, ttl: Option<int>, now: int)
    requires WithinBound(cfg, s)
    ensures WithinBound(cfg, Write(cfg, s, k, v, ttl, now))
  {
    var e := NewEntry(cfg, v, ttl, now);
    if Has(s.store, k) {
      PushKeepsDistinct(s.store, k, e);
    } else {
      var n := if |s.store| >= cfg.maxEntries then Evicted(cfg, s.store) else 0;
      AbsentInRest(s.store, n, k);
      assert s.store[0..] == s.store;
      AppendKeepsDistinct(s.store[n..], k, e);
    }
  }

  lemma StepKeepsBound(cfg: Config, s: State, op: Op)
    requires WithinBound(cfg, s)
    ensures WithinBound(cfg, Step(cfg, s, op))
  {
    match op
    case GetOp(k, now) => ReadKeepsBound(cfg, s, k, now);
    case SetOp(k, v, ttl, now) => WriteKeepsBound(cfg, s, k, v, ttl, now);
    case DeleteOp(k) => DeleteKeepsDistinct(s.store, k);
    case HasOp(k, now) => DeleteKeepsDistinct(s.store, k);
    case ClearOp =>
    case CleanupOp(now) => UnexpiredIsSublist(s.store, now);
  }

  lemma ReadKeepsBound(cfg: Config, s: State, k: Key, now: int)
    requires WithinBound(cfg, s)
    ensures WithinBound(cfg, Read(s, k, now))
  {
    DeleteKeepsDistinct(s.store, k);
    if Has(s.store, k) { PushKeepsDistinct(s.store, k, s.store[IndexOf(s.store, k)].value); }
  }

  /** In every run the cache holds at most maxEntries entries (one, when maxEntries is 0), all with different keys. */
  lemma {:induction false} RunKeepsBound(cfg: Config, s: State, ops: seq<Op>)
    requires WithinBound(cfg, s)
    ensures WithinBound(cfg, Run(cfg, s, ops))
  {
    if ops != [] {
      RunKeepsBound(cfg, s, ops[..|ops| - 1]);
      StepKeepsBound(cfg, Run(cfg, s, ops[..|ops| - 1]), ops[|ops| - 1]);
    }
  }

  // ---------------------------------------------------------------------------
  // Store order is last-touch order
  // ---------------------------------------------------------------------------

  ghost predicate InTouchOrder(m: Store, log: seq<Key>) {
    && (forall i | 0 <= i < |m| :: LastIn(log, m[i].key) >= 0)
    && (forall i, j | 0 <= i < j < |m| :: LastIn(log, m[i].key) < LastIn(log, m[j].key))
  }

  lemma DeleteKeepsOrder(m: Store, log: seq<Key>, k: Key)
    requires InTouchOrder(m, log)
    ensures InTouchOrder(Delete(m, k), log)
  {
    var r := Delete(m, k);
    forall i | 0 <= i < |r|
      ensures LastIn(log, r[i].key) >= 0
    {
      DeleteAt(m, k, i);
    }
    forall i, j | 0 <= i < j < |r|
      ensures LastIn(log, r[i].key) < LastIn(log, r[j].key)
    {
      DeleteAt(m, k, i);
      DeleteAt(m, k, j);
    }
  }

  lemma TailKeepsOrder(m: Store, log: seq<Key>)
    requires m != [] && InTouchOrder(m, log)
    ensures InTouchOrder(m[1..], log)
    ensures forall p | p in m[1..] :: LastIn(log, m[0].key) < LastIn(log, p.key)
  {
  }

  lemma PrependKeepsOrder(p: Pair<Key, Entry>, m: Store, log: seq<Key>)
    requires InTouchOrder(m, log) && LastIn(log, p.key) >= 0
    requires forall q | q in m :: LastIn(log, p.key) < LastIn(log, q.key)
    ensures InTouchOrder([p] + m, log)
  {
  }

  lemma {:induction false} UnexpiredKeepsOrder(m: Store, log: seq<Key>, now: int)
    requires InTouchOrder(m, log)
    ensures InTouchOrder(Unexpired(m, now), log)
  {
    if m != [] {
      TailKeepsOrder(m, log);
      UnexpiredKeepsOrder(m[1..], log, now);
      UnexpiredIsSublist(m[1..], now);
      if now <= m[0].value.expiresAt {
        PrependKeepsOrder(m[0], Unexpired(m[1..], now), log);
      }
    }
  }

  lemma AppendKeepsOrder(m: Store, log: seq<Key>, k: Key, e: Entry)
    requires InTouchOrder(m, log) && !Has(m, k)
    ensures InTouchOrder(m + [Pair(k, e)], log + [k])
  {
    forall i | 0 <= i < |m|
      ensures LastIn(log + [k], m[i].key) == LastIn(log, m[i].key)
    {
      assert (log + [k])[..|log|] == log;
    }
    assert LastIn(log + [k], k) == |log|;
  }

  lemma CutKeepsOrder(m: Store, log: seq<Key>, n: nat)
    requires InTouchOrder(m, log) && n <= |m|
    ensures InTouchOrder(m[n..], log)
  {
  }

  lemma ReadKeepsOrder(s: State, k: Key, now: int, log: seq<Key>)
    requires Distinct(s.store) && InTouchOrder(s.store, log)
    ensures InTouchOrder(Read(s, k, now).store, if Lookup(s, k, now).Some? then log + [k] else log)
  {
    DeleteKeepsDistinct(s.store, k);
    DeleteKeepsOrder(s.store, log, k);
    if Lookup(s, k, now).Some? {
      AppendKeepsOrder(Delete(s.store, k), log, k, s.store[IndexOf(s.store, k)].value);
    }
  }

  lemma WriteKeepsOrder(cfg: Config, s: State, k: Key, v: Value, ttl: Option<int>, now: int, log: seq<Key>)
    requires Distinct(s.store) && InTouchOrder(s.store, log)
    ensures InTouchOrder(Write(cfg, s, k, v, ttl, now).store, log + [k])
  {
    var e := NewEntry(cfg, v, ttl, now);
    if Has(s.store, k) {
      DeleteKeepsDistinct(s.store, k);
      DeleteKeepsOrder(s.store, log, k);
      AppendKeepsOrder(Delete(s.store, k), log, k, e);
    } else if |s.store| >= cfg.maxEntries {
      AbsentInRest(s.store, Evicted(cfg, s.store), k);
      CutKeepsOrder(s.store, log, Evicted(cfg, s.store));
      AppendKeepsOrder(s.store[Evicted(cfg, s.store)..], log, k, e);
    } else {
      AppendKeepsOrder(s.store, log, k, e);
    }
  }

  lemma StepKeepsOrder(cfg: Config, s: State, op: Op, log: seq<Key>)
    requires WithinBound(cfg, s) && InTouchOrder(s.store, log)
    ensures var t := Touched(s, op);
      InTouchOrder(Step(cfg, s, op).store, log + if t.Some? then [t.value] else [])
  {
    assert log + [] == log;
    match op
    case GetOp(k, now) => ReadKeepsOrder(s, k, now, log);
    case SetOp(k, v, ttl, now) => WriteKeepsOrder(cfg, s, k, v, ttl, now, log);
    case DeleteOp(k) => DeleteKeepsOrder(s.store, log, k);
    case HasOp(k, now) => DeleteKeepsOrder(s.store, log, k);
    case ClearOp =>
    case CleanupOp(now) => UnexpiredKeepsOrder(s.store, log, now);
  }

  /** In every run the entries are stored in the order in which their keys were last touched. */
  lemma {:induction false} StoreOrderIsTouchOrder(cfg: Config, ops: seq<Op>)
    ensures InTouchOrder(Run(cfg, Empty, ops).store, TouchLog(cfg, Empty, ops))
  {
    if ops != [] {
      var before := ops[..|ops| - 1];
      StoreOrderIsTouchOrder(cfg, before);
      RunKeepsBound(cfg, Empty, before);
      StepKeepsOrder(cfg, Run(cfg, Empty, before), ops[|ops| - 1], TouchLog(cfg, Empty, before));
    }
  }

  // ---------------------------------------------------------------------------
  // What a hit returns
  // ---------------------------------------------------------------------------

  /** The last operation that wrote, deleted or cleared `k`, or |ops|. */
  function LastWrite(ops: seq<Op>, k: Key): (i: nat)
    ensures i <= |ops|
  {
    if ops == [] then 0
    else
      var n := |ops| - 1;
      var op := ops[n];
      if op.ClearOp? || ((op.SetOp? || op.DeleteOp?) && op.key == k) then n
      else
        var i := LastWrite(ops[..n], k);
        if i < n then i else |ops|
  }

  /**
   In every run, whatever is stored for `k` is what the last write of `k` stored, and no deletion
   or clear came after it: a hit returns the value last set, unexpired.
   */
  lemma {:induction false} HitReturnsLastWrite(cfg: Config, ops: seq<Op>, k: Key)
    ensures Has(Run(cfg, Empty, ops).store, k) ==>
      var i := LastWrite(ops, k);
      && i < |ops| && ops[i].SetOp? && ops[i].key == k
      && InsertionMap.Get(Run(cfg, Empty, ops).store, k) == Some(NewEntry(cfg, ops[i].value, ops[i].ttl, ops[i].now))
  {
    if ops != [] {
      var before, op := ops[..|ops| - 1], ops[|ops| - 1];
      HitReturnsLastWrite(cfg, before, k);
      RunKeepsBound(cfg, Empty, before);
      StepKeepsOrRemoves(cfg, Run(cfg, Empty, before), op, k);
    }
  }

  lemma PushGet(m: Store, k: Key, e: Entry, x: Key)
    requires Distinct(m)
    ensures InsertionMap.Get(Delete(m, k) + [Pair(k, e)], x) == if x == k then Some(e) else InsertionMap.Get(m, x)
  {
    DeleteKeepsDistinct(m, k);
    var r := Delete(m, k);
    if x == k {
      IndexBehind(r, [Pair(k, e)], k);
    } else {
      DeleteOther(m, k, x);
      if Has(r, x) { IndexInFront(r, [Pair(k, e)], x); } else { IndexBehind(r, [Pair(k, e)], x); }
    }
  }

  lemma DeleteGet(m: Store, k: Key, x: Key)
    requires Distinct(m)
    ensures InsertionMap.Get(Delete(m, k), x) == if x == k then None else InsertionMap.Get(m, x)
  {
    DeleteKeepsDistinct(m, k);
    if x != k { DeleteOther(m, k, x); }
  }

  lemma TailGet(m: Store, n: nat, x: Key)
    requires Distinct(m) && n <= |m|
    ensures InsertionMap.Get(m[n..], x) == if IndexOf(m, x) < n then None else InsertionMap.Get(m, x)
  {
    var i := IndexOf(m, x);
    if i >= |m| {
      AbsentInRest(m, n, x);
    } else if i >= n {
      assert m[n..][i - n] == m[i];
      IndexIsUnique(m[n..], x, i - n);
    } else {
      forall j | 0 <= j < |m[n..]|
        ensures m[n..][j].key != x
      {
        assert m[n..][j] == m[n + j];
      }
    }
  }

  lemma {:induction false} UnexpiredGet(m: Store, now: int, x: Key)
    requires Distinct(m)
    ensures InsertionMap.Get(Unexpired(m, now), x) ==
      match InsertionMap.Get(m, x)
      case Some(e) => if now > e.expiresAt then None else Some(e)
      case None => None
  {
    if m != [] {
      UnexpiredGet(m[1..], now, x);
      if m[0].key == x { AbsentAfterFirst(m); }
      if now <= m[0].value.expiresAt {
        assert ([m[0]] + Unexpired(m[1..], now))[1..] == Unexpired(m[1..], now);
      }
    }
  }

  lemma AbsentAfterFirst(m: Store)
    requires m != [] && Distinct(m)
    ensures !Has(m[1..], m[0].key)
  {
  }

  /** A step other than a write of `x` either keeps x's entry as it is or removes it. */
  lemma StepKeepsOrRemoves(cfg: Config, s: State, op: Op, x: Key)
    requires Distinct(s.store)
    ensures var g, g' := InsertionMap.Get(s.store, x), InsertionMap.Get(Step(cfg, s, op).store, x);
      && (op.SetOp? && op.key == x ==> g' == Some(NewEntry(cfg, op.value, op.ttl, op.now)))
      && (op.ClearOp? || (op.DeleteOp? && op.key == x) ==> g' == None)
      && (g' == g || g' == None || (op.SetOp? && op.key == x))
  {
    match op
    case GetOp(k, now) =>
      DeleteGet(s.store, k, x);
      if Has(s.store, k) { PushGet(s.store, k, s.store[IndexOf(s.store, k)].value, x); }
    case SetOp(k, v, ttl, now) =>
      var e := NewEntry(cfg, v, ttl, now);
      if Has(s.store, k) {
        PushGet(s.store, k, e, x);
      } else if |s.store| >= cfg.maxEntries {
        var n := Evicted(cfg, s.store);
        TailGet(s.store, n, x);
        AbsentInRest(s.store, n, k);
        PushGet(s.store[n..], k, e, x);
      } else {
        PushGet(s.store, k, e, x);
      }
    case DeleteOp(k) => DeleteGet(s.store, k, x);
    case HasOp(k, now) => DeleteGet(s.store, k, x);
    case ClearOp =>
    case CleanupOp(now) => UnexpiredGet(s.store, now, x);
  }

  // ---------------------------------------------------------------------------
  // Who survives
  // ---------------------------------------------------------------------------

  /** `op` neither touches `k` on purpose nor removes it, nor comes after k's expiry. */
  ghost predicate LeavesAlone(op: Op, k: Key, expiresAt: int) {
    match op
    case GetOp(x, now) => x != k
    case SetOp(x, _, _, _) => x != k
    case DeleteOp(x) => x != k
    case ClearOp => false
    case HasOp(x, now) => x == k ==> now <= expiresAt
    case CleanupOp(now) => now <= expiresAt
  }

  ghost function KeysTouched(cfg: Config, s: State, ops: seq<Op>): set<Key> {
    if ops == [] then {}
    else
      var t := Touched(Run(cfg, s, ops[..|ops| - 1]), ops[|ops| - 1]);
      KeysTouched(cfg, s, ops[..|ops| - 1]) + if t.Some? then {t.value} else {}
  }

  /** `k` is stored as `e`, and only keys of `later` are stored behind it. */
  ghost predicate Placed(m: Store, k: Key, e: Entry, later: set<Key>) {
    && Has(m, k)
    && m[IndexOf(m, k)] == Pair(k, e)
    && Keys(m[IndexOf(m, k) + 1..]) <= later
  }

  lemma PlacedAppend(m: Store, k: Key, e: Entry, later: set<Key>, x: Key, ex: Entry)
    requires Placed(m, k, e, later)
    ensures Placed(m + [Pair(x, ex)], k, e, later + {x})
  {
    var i := IndexOf(m, k);
    IndexInFront(m, [Pair(x, ex)], k);
    assert (m + [Pair(x, ex)])[i + 1..] == m[i + 1..] + [Pair(x, ex)];
    KeysConcat(m[i + 1..], [Pair(x, ex)]);
  }

  lemma PlacedDelete(m: Store, k: Key, e: Entry, later: set<Key>, x: Key)
    requires Distinct(m) && Placed(m, k, e, later) && x != k
    ensures Placed(Delete(m, x), k, e, later)
  {
    DeleteOther(m, x, k);
  }

  lemma PlacedTail(m: Store, k: Key, e: Entry, later: set<Key>, n: nat)
    requires Distinct(m) && Placed(m, k, e, later) && n <= IndexOf(m, k)
    ensures Placed(m[n..], k, e, later)
  {
    var i := IndexOf(m, k);
    assert m[n..][i - n] == m[i];
    IndexIsUnique(m[n..], k, i - n);
    assert m[n..][i - n + 1..] == m[i + 1..];
  }

  lemma {:induction false} UnexpiredKeys(m: Store, now: int)
    ensures Keys(Unexpired(m, now)) <= Keys(m)
  {
    if m != [] {
      UnexpiredKeys(m[1..], now);
      if now <= m[0].value.expiresAt {
        assert ([m[0]] + Unexpired(m[1..], now))[1..] == Unexpired(m[1..], now);
      }
    }
  }

  lemma {:induction false} PlacedUnexpired(m: Store, k: Key, e: Entry, later: set<Key>, now: int)
    requires Placed(m, k, e, later) && now <= e.expiresAt
    ensures Placed(Unexpired(m, now), k, e, later)
  {
    var rest := Unexpired(m[1..], now);
    if m[0].key == k {
      UnexpiredKeys(m[1..], now);
      assert ([m[0]] + rest)[1..] == rest;
    } else {
      assert m[1..][IndexOf(m[1..], k) + 1..] == m[IndexOf(m, k) + 1..];
      PlacedUnexpired(m[1..], k, e, later, now);
      if now <= m[0].value.expiresAt {
        assert ([m[0]] + rest)[1..] == rest;
        assert ([m[0]] + rest)[IndexOf([m[0]] + rest, k) + 1..] == rest[IndexOf(rest, k) + 1..];
      }
    }
  }

  /** A full cache evicts only the first BatchSize places, and `k` stands behind them. */
  lemma SurvivesEviction(cfg: Config, m: Store, k: Key, e: Entry, later: set<Key>)
    requires Distinct(m) && Placed(m, k, e, later)
    requires |m| >= cfg.maxEntries && |later| + 1 <= cfg.maxEntries - BatchSize(cfg)
    ensures Placed(m[Evicted(cfg, m)..], k, e, later)
  {
    var i := IndexOf(m, k);
    var behind := m[i + 1..];
    KeysCount(behind);
    SubsetSize(Keys(behind), later);
    PlacedTail(m, k, e, later, Evicted(cfg, m));
  }

  lemma PlacedEvictAppend(cfg: Config, m: Store, k: Key, e: Entry, later: set<Key>, x: Key, ex: Entry)
    requires Distinct(m) && Placed(m, k, e, later) && !Has(m, x)
    requires |m| >= cfg.maxEntries && |later + {x}| <= cfg.maxEntries - BatchSize(cfg)
    ensures Placed(m[Evicted(cfg, m)..] + [Pair(x, ex)], k, e, later + {x})
  {
    var i := IndexOf(m, k);
    AbsentInRest(m, i + 1, x);
    KeysMember(m[i + 1..], x);
    assert later + {x} == (later - {x}) + {x};
    SurvivesEviction(cfg, m, k, e, later - {x});
    PlacedAppend(m[Evicted(cfg, m)..], k, e, later - {x}, x, ex);
  }

  lemma StepKeepsPlaced(cfg: Config, s: State, op: Op, k: Key, e: Entry, later: set<Key>)
    requires Distinct(s.store) && Placed(s.store, k, e, later) && LeavesAlone(op, k, e.expiresAt)
    requires op.SetOp? ==> |later + {op.key}| <= cfg.maxEntries - BatchSize(cfg)
    ensures var t := Touched(s, op);
      Placed(Step(cfg, s, op).store, k, e, later + if t.Some? then {t.value} else {})
  {
    assert later + {} == later;
    match op
    case GetOp(x, now) =>
      PlacedDelete(s.store, k, e, later, x);
      if Has(s.store, x) { PlacedAppend(Delete(s.store, x), k, e, later, x, s.store[IndexOf(s.store, x)].value); }
    case SetOp(x, v, ttl, now) =>
      var ex := NewEntry(cfg, v, ttl, now);
      if Has(s.store, x) {
        PlacedDelete(s.store, k, e, later, x);
        PlacedAppend(Delete(s.store, x), k, e, later, x, ex);
      } else if |s.store| >= cfg.maxEntries {
        PlacedEvictAppend(cfg, s.store, k, e, later, x, ex);
      } else {
        PlacedAppend(s.store, k, e, later, x, ex);
      }
    case DeleteOp(x) => PlacedDelete(s.store, k, e, later, x);
    case HasOp(x, now) => if x != k { PlacedDelete(s.store, k, e, later, x); }
    case CleanupOp(now) => PlacedUnexpired(s.store, k, e, later, now);
  }

  lemma {:induction false} RunKeepsPlaced(cfg: Config, s: State, ops: seq<Op>, k: Key, e: Entry)
    requires WithinBound(cfg, s) && Placed(s.store, k, e, {})
    requires forall op | op in ops :: LeavesAlone(op, k, e.expiresAt)
    requires |KeysTouched(cfg, s, ops)| <= cfg.maxEntries - BatchSize(cfg)
    ensures Placed(Run(cfg, s, ops).store, k, e, KeysTouched(cfg, s, ops))
  {
    if ops != [] {
      var before, op := ops[..|ops| - 1], ops[|ops| - 1];
      assert ops == before + [op];
      SubsetSize(KeysTouched(cfg, s, before), KeysTouched(cfg, s, ops));
      RunKeepsPlaced(cfg, s, before, k, e);
      RunKeepsBound(cfg, s, before);
      StepKeepsPlaced(cfg, Run(cfg, s, before), op, k, e, KeysTouched(cfg, s, before));
    }
  }

  /**
   A key that was touched stays readable: whatever run came first, after a touch of `k` and any
   further run in which `k` is not written, deleted or past its expiry and in which at most
   maxEntries - batchSize different other keys are touched, reading `k` is a hit and returns the
   value it had at the touch.
   */
  lemma TouchedKeyIsAHit(cfg: Config, pre: seq<Op>, touch: Op, post: seq<Op>, k: Key, now: int)
    requires Touched(Run(cfg, Empty, pre), touch) == Some(k)
    requires var s := Step(cfg, Run(cfg, Empty, pre), touch);
      && (forall e | InsertionMap.Get(s.store, k) == Some(e) ::
            now <= e.expiresAt && forall op | op in post :: LeavesAlone(op, k, e.expiresAt))
      && |KeysTouched(cfg, s, post)| <= cfg.maxEntries - BatchSize(cfg)
    ensures var s := Step(cfg, Run(cfg, Empty, pre), touch);
      && InsertionMap.Get(s.store, k).Some?
      && Lookup(Run(cfg, s, post), k, now) == Some(InsertionMap.Get(s.store, k).value.data)
  {
    var s0 := Run(cfg, Empty, pre);
    var s := Step(cfg, s0, touch);
    RunKeepsBound(cfg, Empty, pre);
    StepKeepsBound(cfg, s0, touch);
    TouchPlacesLast(cfg, s0, touch, k);
    var e := s.store[|s.store| - 1].value;
    RunKeepsPlaced(cfg, s, post, k, e);
  }

  lemma TouchPlacesLast(cfg: Config, s: State, touch: Op, k: Key)
    requires Distinct(s.store) && Touched(s, touch) == Some(k)
    ensures var m := Step(cfg, s, touch).store;
      m != [] && Placed(m, k, m[|m| - 1].value, {})
  {
    match touch
    case GetOp(_, now) =>
      DeleteKeepsDistinct(s.store, k);
      AppendPlacesLast(Delete(s.store, k), k, s.store[IndexOf(s.store, k)].value);
    case SetOp(_, v, ttl, now) => WritePlacesLast(cfg, s, k, v, ttl, now);
  }

  lemma WritePlacesLast(cfg: Config, s: State, k: Key, v: Value, ttl: Option<int>, now: int)
    requires Distinct(s.store)
    ensures var m := Write(cfg, s, k, v, ttl, now).store;
      m != [] && Placed(m, k, m[|m| - 1].value, {})
  {
    var e := NewEntry(cfg, v, ttl, now);
    if Has(s.store, k) {
      DeleteKeepsDistinct(s.store, k);
      AppendPlacesLast(Delete(s.store, k), k, e);
    } else if |s.store| >= cfg.maxEntries {
      AbsentInRest(s.store, Evicted(cfg, s.store), k);
      AppendPlacesLast(s.store[Evicted(cfg, s.store)..], k, e);
    } else {
      AppendPlacesLast(s.store, k, e);
    }
  }

  lemma AppendPlacesLast(front: Store, k: Key, e: Entry)
    requires !Has(front, k)
    ensures Placed(front + [Pair(k, e)], k, e, {})
  {
    var m := front + [Pair(k, e)];
    IndexBehind(front, [Pair(k, e)], k);
    assert m[|m|..] == [];
  }

  lemma EvictsByPlace(cfg: Config, s: State, x: Key, v: Value, ttl: Option<int>, now: int, k: Key)
    requires Distinct(s.store) && !Has(s.store, x) && Has(s.store, k) && |s.store| >= cfg.maxEntries
    ensures Has(Write(cfg, s, x, v, ttl, now).store, k) <==> IndexOf(s.store, k) >= BatchSize(cfg)
  {
    var n := Evicted(cfg, s.store);
    TailGet(s.store, n, k);
    var tail := s.store[n..];
    var p := [Pair(x, NewEntry(cfg, v, ttl, now))];
    if Has(tail, k) { IndexInFront(tail, p, k); } else { IndexBehind(tail, p, k); }
  }

  /** The stored keys that were last touched before `k` was. */
  ghost function TouchedLongerAgo(m: Store, log: seq<Key>, k: Key): set<Key> {
    set j | 0 <= j < |m| && LastIn(log, m[j].key) < LastIn(log, k) :: m[j].key
  }

  lemma InFrontExactly(m: Store, log: seq<Key>, k: Key, j: nat)
    requires InTouchOrder(m, log) && Distinct(m) && Has(m, k) && j < |m|
    ensures LastIn(log, m[j].key) < LastIn(log, k) <==> j < IndexOf(m, k)
  {
    var i := IndexOf(m, k);
    assert m[i].key == k;
  }

  lemma KeyInFront(m: Store, i: nat, x: Key)
    requires i <= |m|
    ensures x in Keys(m[..i]) <==> exists j :: 0 <= j < i && m[j].key == x
  {
    KeysMember(m[..i], x);
    if j :| 0 <= j < i && m[j].key == x {
      assert m[..i][j].key == x;
    }
    if Has(m[..i], x) { assert m[IndexOf(m[..i], x)].key == x; }
  }

  lemma TouchedLongerAgoAreInFront(m: Store, log: seq<Key>, k: Key)
    requires InTouchOrder(m, log) && Distinct(m) && Has(m, k)
    ensures |TouchedLongerAgo(m, log, k)| == IndexOf(m, k)
  {
    var i := IndexOf(m, k);
    forall j: nat | j < |m|
      ensures LastIn(log, m[j].key) < LastIn(log, k) <==> j < i
    {
      InFrontExactly(m, log, k, j);
    }
    forall x
      ensures x in TouchedLongerAgo(m, log, k) <==> x in Keys(m[..i])
    {
      KeyInFront(m, i, x);
    }
    assert TouchedLongerAgo(m, log, k) == Keys(m[..i]);
    KeysCount(m[..i]);
  }

  /**
   Who is evicted, exactly: after any run, when a new key is written to a full cache, a stored key
   survives if and only if at least BatchSize stored keys were last touched longer ago.
   */
  lemma EvictionExactly(cfg: Config, ops: seq<Op>, x: Key, v: Value, ttl: Option<int>, now: int, k: Key)
    requires var m := Run(cfg, Empty, ops).store; !Has(m, x) && Has(m, k) && |m| >= cfg.maxEntries
    ensures Has(Run(cfg, Empty, ops + [SetOp(x, v, ttl, now)]).store, k) <==>
        |TouchedLongerAgo(Run(cfg, Empty, ops).store, TouchLog(cfg, Empty, ops), k)| >= BatchSize(cfg)
  {
    var s := Run(cfg, Empty, ops);
    assert (ops + [SetOp(x, v, ttl, now)])[..|ops|] == ops;
    RunKeepsBound(cfg, Empty, ops);
    StoreOrderIsTouchOrder(cfg, ops);
    EvictsByPlace(cfg, s, x, v, ttl, now, k);
    TouchedLongerAgoAreInFront(s.store, TouchLog(cfg, Empty, ops), k);
  }

  /** The batch is the least whole number, at least 1, that reaches the configured share of maxEntries. */
  lemma BatchIsCeiling(cfg: Config)
    ensures var b, share := BatchSize(cfg), cfg.maxEntries as real * cfg.evictBatchFraction;
      b >= 1 && b as real >= share && (b == 1 || (b - 1) as real < share)
  {
    var share := cfg.maxEntries as real * cfg.evictBatchFraction;
    CeilBounds(share);
    Order(Ceil(share), BatchSize(cfg));
    assert (BatchSize(cfg) - 1) as real == BatchSize(cfg) as real - 1.0;
  }

  lemma Order(a: int, b: int)
    ensures a <= b <==> a as real <= b as real
  {
  }

  lemma CeilBounds(x: real)
    ensures Ceil(x) as real - 1.0 < x <= Ceil(x) as real
  {
    var f := (-x).Floor;
    assert f as real <= -x < f as real + 1.0;
    assert (-f) as real == -(f as real);
  }

  // ---------------------------------------------------------------------------
  // Reads and the history
  // ---------------------------------------------------------------------------

  /** The time to live of a write, in milliseconds: its own seconds, or else the configured ones. */
  function LifeMs(cfg: Config, write: Op): int
    requires write.SetOp?
  {
    match write.ttl
    case Some(seconds) => seconds * 1000
    case None => cfg.defaultTtlSeconds * 1000
  }

  /** `k` was written at some time and not deleted or cleared since, and its time to live is not over at `now`. */
  ghost predicate Fresh(cfg: Config, ops: seq<Op>, k: Key, now: int) {
    var i := LastWrite(ops, k);
    i < |ops| && ops[i].SetOp? && ops[i].key == k && now <= ops[i].now + LifeMs(cfg, ops[i])
  }

  /** The operation looks at `k`, or at all entries, at a time `k` has outlived. */
  ghost predicate SeesExpired(cfg: Config, before: seq<Op>, op: Op, k: Key) {
    match op
    case GetOp(x, now) => x == k && !Fresh(cfg, before, k, now)
    case HasOp(x, now) => x == k && !Fresh(cfg, before, k, now)
    case CleanupOp(now) => !Fresh(cfg, before, k, now)
    case _ => false
  }

  /** The operation writes a new key to the full cache, and fewer than a batch of keys were touched before `k`. */
  ghost predicate Evicts(cfg: Config, before: seq<Op>, op: Op, k: Key) {
    var m := Run(cfg, Empty, before).store;
    && op.SetOp? && !Has(m, op.key) && |m| >= cfg.maxEntries
    && |TouchedLongerAgo(m, TouchLog(cfg, Empty, before), k)| < BatchSize(cfg)
  }

  /** `k` was written, and no later operation deleted it, cleared the cache, found it expired or evicted it. */
  ghost predicate Survives(cfg: Config, ops: seq<Op>, k: Key) {
    ops != [] &&
    var before, op := ops[..|ops| - 1], ops[|ops| - 1];
    if op.SetOp? && op.key == k then true
    else
      && Survives(cfg, before, k)
      && !op.ClearOp? && !(op.DeleteOp? && op.key == k)
      && !SeesExpired(cfg, before, op, k) && !Evicts(cfg, before, op, k)
  }

  /** What is stored for `k` expires when its last write's time to live is over. */
  lemma StoredIsFresh(cfg: Config, ops: seq<Op>, k: Key, now: int)
    requires Has(Run(cfg, Empty, ops).store, k)
    ensures Fresh(cfg, ops, k, now) <==> Lookup(Run(cfg, Empty, ops), k, now).Some?
    ensures Fresh(cfg, ops, k, now) ==>
        Lookup(Run(cfg, Empty, ops), k, now) == Some(ops[LastWrite(ops, k)].value)
  {
    HitReturnsLastWrite(cfg, ops, k);
  }

  lemma AppendedHas(m: Store, x: Key, e: Entry, k: Key)
    ensures Has(m + [Pair(x, e)], k) <==> Has(m, k) || x == k
  {
    if Has(m, k) { IndexInFront(m, [Pair(x, e)], k); } else { IndexBehind(m, [Pair(x, e)], k); }
  }

  lemma DeletedHas(m: Store, x: Key, k: Key)
    requires Distinct(m)
    ensures Has(Delete(m, x), k) <==> Has(m, k) && x != k
  {
    DeleteKeepsDistinct(m, x);
    if x != k { DeleteOther(m, x, k); }
  }

  /** A write of another key leaves `k` stored unless it evicts it. */
  lemma WriteSpares(cfg: Config, before: seq<Op>, op: Op, k: Key)
    requires op.SetOp? && op.key != k
    ensures Has(Run(cfg, Empty, before + [op]).store, k) <==>
        Has(Run(cfg, Empty, before).store, k) && !Evicts(cfg, before, op, k)
  {
    var s := Run(cfg, Empty, before);
    assert (before + [op])[..|before|] == before;
    RunKeepsBound(cfg, Empty, before);
    var e := NewEntry(cfg, op.value, op.ttl, op.now);
    if Has(s.store, op.key) {
      DeletedHas(s.store, op.key, k);
      AppendedHas(Delete(s.store, op.key), op.key, e, k);
    } else if |s.store| >= cfg.maxEntries {
      TailGet(s.store, Evicted(cfg, s.store), k);
      AppendedHas(s.store[Evicted(cfg, s.store)..], op.key, e, k);
      if Has(s.store, k) { EvictionExactly(cfg, before, op.key, op.value, op.ttl, op.now, k); }
    } else {
      AppendedHas(s.store, op.key, e, k);
    }
  }

  lemma WriteStores(cfg: Config, s: State, op: Op)
    requires Distinct(s.store) && op.SetOp?
    ensures Has(Step(cfg, s, op).store, op.key)
  {
    StepKeepsOrRemoves(cfg, s, op, op.key);
  }

  /** A read, a test or a clean-up leaves `k` stored unless it finds it expired. */
  lemma LookSpares(cfg: Config, before: seq<Op>, op: Op, k: Key)
    requires op.GetOp? || op.HasOp? || op.CleanupOp?
    ensures Has(Run(cfg, Empty, before + [op]).store, k) <==>
        Has(Run(cfg, Empty, before).store, k) && !SeesExpired(cfg, before, op, k)
  {
    var m := Run(cfg, Empty, before).store;
    assert (before + [op])[..|before|] == before;
    RunKeepsBound(cfg, Empty, before);
    if Has(m, k) { StoredIsFresh(cfg, before, k, op.now); }
    if op.CleanupOp? {
      UnexpiredGet(m, op.now, k);
    } else {
      DeletedHas(m, op.key, k);
      if Has(m, op.key) { AppendedHas(Delete(m, op.key), op.key, m[IndexOf(m, op.key)].value, k); }
    }
  }

  /** What is stored, exactly. */
  lemma {:induction false} StoredExactly(cfg: Config, ops: seq<Op>, k: Key)
    ensures Has(Run(cfg, Empty, ops).store, k) <==> Survives(cfg, ops, k)
  {
    if ops != [] {
      var before, op := ops[..|ops| - 1], ops[|ops| - 1];
      assert ops == before + [op];
      StoredExactly(cfg, before, k);
      RunKeepsBound(cfg, Empty, before);
      match op
      case GetOp(_, _) => LookSpares(cfg, before, op, k);
      case HasOp(_, _) => LookSpares(cfg, before, op, k);
      case CleanupOp(_) => LookSpares(cfg, before, op, k);
      case SetOp(x, _, _, _) =>
        if x == k { WriteStores(cfg, Run(cfg, Empty, before), op); } else { WriteSpares(cfg, before, op, k); }
      case DeleteOp(x) => DeletedHas(Run(cfg, Empty, before).store, x, k);
      case ClearOp =>
    }
  }

  /**
   The cache against its history: after any run, with any clock, a read or a test of `k` finds the value
   last set for `k` if that was not deleted or cleared, its own or the configured seconds have not
   passed, and it was neither found expired nor evicted since; otherwise it finds nothing.
   */
  lemma ReadsHistory(cfg: Config, ops: seq<Op>, k: Key, now: int)
    ensures Lookup(Run(cfg, Empty, ops), k, now) ==
      if Fresh(cfg, ops, k, now) && Survives(cfg, ops, k) then Some(ops[LastWrite(ops, k)].value) else None
  {
    StoredExactly(cfg, ops, k);
    if Has(Run(cfg, Empty, ops).store, k) { StoredIsFresh(cfg, ops, k, now); }
  }

  /** The keys that the writes of a run pushed out, added up. */
  ghost function PushedOut(cfg: Config, ops: seq<Op>): nat {
    if ops == [] then 0
    else
      var before, op := ops[..|ops| - 1], ops[|ops| - 1];
      PushedOut(cfg, before) +
      if op.SetOp? then |Keys(Run(cfg, Empty, before).store) - Keys(Run(cfg, Empty, ops).store)| else 0
  }

  lemma LostToWrite(cfg: Config, s: State, op: Op)
    requires Distinct(s.store) && op.SetOp?
    ensures Step(cfg, s, op).evictions == s.evictions + |Keys(s.store) - Keys(Step(cfg, s, op).store)|
  {
    var m, k, e, m' := s.store, op.key, NewEntry(cfg, op.value, op.ttl, op.now), Step(cfg, s, op).store;
    var n: nat := if Has(m, k) || |m| < cfg.maxEntries then 0 else Evicted(cfg, m);
    forall x
      ensures x in Keys(m) && x !in Keys(m') <==> x in Keys(m[..n])
    {
      KeysMember(m, x);
      KeysMember(m', x);
      KeysMember(m[..n], x);
      PlaceInFront(m, n, x);
      if Has(m, k) {
        DeletedHas(m, k, x);
        AppendedHas(Delete(m, k), k, e, x);
      } else {
        TailGet(m, n, x);
        assert n == 0 ==> m[n..] == m;
        AppendedHas(m[n..], k, e, x);
      }
    }
    assert Keys(m) - Keys(m') == Keys(m[..n]);
    KeysCount(m[..n]);
  }

  lemma PlaceInFront(m: Store, n: nat, x: Key)
    requires n <= |m|
    ensures Has(m[..n], x) <==> IndexOf(m, x) < n
  {
    KeyInFront(m, n, x);
    KeysMember(m[..n], x);
    if IndexOf(m, x) < n { assert m[IndexOf(m, x)].key == x; }
  }

  /** The eviction counter counts the keys pushed out by writes, and nothing else. */
  lemma {:induction false} EvictionsAreCounted(cfg: Config, ops: seq<Op>)
    ensures Run(cfg, Empty, ops).evictions == PushedOut(cfg, ops)
  {
    if ops != [] {
      var before, op := ops[..|ops| - 1], ops[|ops| - 1];
      EvictionsAreCounted(cfg, before);
      RunKeepsBound(cfg, Empty, before);
      if op.SetOp? { LostToWrite(cfg, Run(cfg, Empty, before), op); }
    }
  }

  function Gets(ops: seq<Op>): nat {
    if ops == [] then 0 else Gets(ops[..|ops| - 1]) + if ops[|ops| - 1].GetOp? then 1 else 0
  }

  /** Every read is counted once, as a hit exactly when it returned a value. */
  lemma {:induction false} ReadsAreCounted(cfg: Config, ops: seq<Op>)
    ensures var s := Run(cfg, Empty, ops); s.hits + s.misses == Gets(ops)
    ensures ops != [] ==>
      var s, op := Run(cfg, Empty, ops[..|ops| - 1]), ops[|ops| - 1];
      Run(cfg, Empty, ops).hits == s.hits + if op.GetOp? && Lookup(s, op.key, op.now).Some? then 1 else 0
  {
    if ops != [] { ReadsAreCounted(cfg, ops[..|ops| - 1]); }
  }
}
