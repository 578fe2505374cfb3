/**
 The on-chain cache: a map of values and a separate vector of keys in touch order, both kept in
 contract storage (stellar-lend/contracts/common/src/cache.rs).
 */
module LedgerCache {
  import opened LastTouch
  import opened Options

  // Symbols are only ever compared for equality.
  type Symbol = nat

  const CACHE_TTL_SECS: nat := 30
  const CACHE_MAX_ENTRIES: nat := 64

  datatype Entry = Entry(value: int, expiresAt: nat)

  datatype Status = Done | InvalidTtl

  // ---------------------------------------------------------------------------
  // Specification
  // ---------------------------------------------------------------------------

  datatype State = State(values: map<Symbol, Entry>, order: seq<Symbol>, hits: nat, misses: nat)

  function IndexOf(order: seq<Symbol>, k: Symbol): (i: nat)
    ensures i <= |order|
    ensures i < |order| ==> order[i] == k
    ensures forall j | 0 <= j < i :: order[j] != k
  {
    if order == [] || order[0] == k then 0 else 1 + IndexOf(order[1..], k)
  }

  function Without(order: seq<Symbol>, k: Symbol): seq<Symbol> {
    var i := IndexOf(order, k);
    if i < |order| then order[..i] + order[i + 1..] else order
  }

  function Touch(order: seq<Symbol>, k: Symbol): seq<Symbol> {
    Without(order, k) + [k]
  }

  datatype Evicted = Evicted(values: map<Symbol, Entry>, order: seq<Symbol>)

  /** Pops keys off the front of the order until at most 64 values are left. */
  function Evict(values: map<Symbol, Entry>, order: seq<Symbol>): Evicted {
    if |values| > CACHE_MAX_ENTRIES && order != [] then Evict(values - {order[0]}, order[1..])
    else Evicted(values, order)
  }

  function Ttl(ttl: Option<nat>): nat { if ttl.Some? then ttl.value else CACHE_TTL_SECS }

  function Write(s: State, k: Symbol, v: int, ttl: Option<nat>, now: nat): State {
    if Ttl(ttl) == 0 then s
    else
      var e := Evict(s.values[k := Entry(v, now + Ttl(ttl))], s.order);
      s.(values := e.values, order := Touch(e.order, k))
  }

  function Lookup(s: State, k: Symbol, now: nat): Option<int> {
    if k in s.values && now <= s.values[k].expiresAt then Some(s.values[k].value) else None
  }

  function Read(s: State, k: Symbol, now: nat): State {
    if Lookup(s, k, now).Some? then s.(order := Touch(s.order, k), hits := s.hits + 1)
    else s.(values := s.values - {k}, misses := s.misses + 1)
  }

  function Invalidated(s: State, k: Symbol): State {
    s.(values := s.values - {k}, order := Without(s.order, k))
  }

  class LedgerCache {
    var values: map<Symbol, Entry>
    var order: seq<Symbol>
    var hits: nat
    var misses: nat

    ghost function Model(): State
      reads this
    {
      State(values, order, hits, misses)
    }

    constructor ()
      ensures Model() == State(map[], [], 0, 0)
    {
      values, order, hits, misses := map[], [], 0, 0;
    }

    method RemoveFromOrder(key: Symbol)
      modifies this`order
      ensures order == Without(old(order), key)
    {
      var idx := 0;
      while idx < |order|
        invariant 0 <= idx <= |order| && order == old(order)
        invariant forall j | 0 <= j < idx :: order[j] != key
        decreases |order| - idx
      {
        if order[idx] == key {
          order := order[..idx] + order[idx + 1..];
          break;
        }
        idx := idx + 1;
      }
    }

    method TouchKey(key: Symbol)
      modifies this`order
      ensures order == Touch(old(order), key)
    {
      RemoveFromOrder(key);
      order := order + [key];
    }

    method EvictLruIfNeeded()
      modifies this`values, this`order
      ensures Evicted(values, order) == Evict(old(values), old(order))
    {
      while |values| > CACHE_MAX_ENTRIES
        invariant Evict(values, order) == Evict(old(values), old(order))
        decreases |order|
      {
        if order == [] {
          break;
        }
        var lruKey := order[0];
        order := order[1..];
        values := values - {lruKey};
      }
    }

    method SetCached(key: Symbol, value: int, ttlSecs: Option<nat>, now: nat) returns (status: Status)
      modifies this
      ensures Model() == Write(old(Model()), key, value, ttlSecs, now)
      ensures status == if Ttl(ttlSecs) == 0 then InvalidTtl else Done
    {
      var ttl := if ttlSecs.Some? then ttlSecs.value else CACHE_TTL_SECS;
      if ttl == 0 {
        return InvalidTtl;
      }
      ghost var before := Model();
      values := values[key := Entry(value, now + ttl)];
      EvictLruIfNeeded();
      WriteUnfolds(before, key, value, ttlSecs, now, values, order);
      TouchKey(key);
      return Done;
    }

    method GetCached(key: Symbol, now: nat) returns (r: Option<int>)
      modifies this
      ensures Model() == Read(old(Model()), key, now)
      ensures r == Lookup(old(Model()), key, now)
    {
      if key in values {
        var entry := values[key];
        if now <= entry.expiresAt {
          hits := hits + 1;
          TouchKey(key);
          return Some(entry.value);
        }
        values := values - {key};
      }
      misses := misses + 1;
      assert old(values) - {key} == values;
      return None;
    }

    method Invalidate(key: Symbol)
      modifies this
      ensures Model() == Invalidated(old(Model()), key)
    {
      values := values - {key};
      RemoveFromOrder(key);
    }
  }

  // ---------------------------------------------------------------------------
  // Runs and their invariant
  // ---------------------------------------------------------------------------

  datatype Op =
    | SetOp(key: Symbol, value: int, ttl: Option<nat>, now: nat)
    | GetOp(key: Symbol, now: nat)
    | InvalidateOp(key: Symbol)

  function Step(s: State, op: Op): State {
    match op
    case SetOp(k, v, ttl, now) => Write(s, k, v, ttl, now)
    case GetOp(k, now) => Read(s, k, now)
    case InvalidateOp(k) => Invalidated(s, k)
  }

  function Run(s: State, ops: seq<Op>): State {
    if ops == [] then s else Step(Run(s, ops[..|ops| - 1]), ops[|ops| - 1])
  }

  const Empty := State(map[], [], 0, 0)

  function Touched(s: State, op: Op): Option<Symbol> {
    match op
    case SetOp(k, _, ttl, _) => if Ttl(ttl) == 0 then None else Some(k)
    case GetOp(k, now) => if Lookup(s, k, now).Some? then Some(k) else None
    case InvalidateOp(_) => None
  }

  function TouchLog(s: State, ops: seq<Op>): seq<Symbol> {
    if ops == [] then []
    else
      var t := Touched(Run(s, ops[..|ops| - 1]), ops[|ops| - 1]);
      TouchLog(s, ops[..|ops| - 1]) + if t.Some? then [t.value] else []
  }

  /** The order vector lists different keys in the order in which they were last touched. */
  ghost predicate InTouchOrder(order: seq<Symbol>, log: seq<Symbol>) {
    && (forall i | 0 <= i < |order| :: LastIn(log, order[i]) >= 0)
    && (forall i, j | 0 <= i < j < |order| :: LastIn(log, order[i]) < LastIn(log, order[j]))
  }

  ghost predicate Invariant(s: State) {
    && AllDifferent(s.order)
    && (forall k | k in s.values :: k in s.order)
    && |s.values| <= CACHE_MAX_ENTRIES
  }

  lemma WithoutFacts(order: seq<Symbol>, k: Symbol)
    requires AllDifferent(order)
    ensures AllDifferent(Without(order, k))
    ensures forall x :: x in Without(order, k) <==> x in order && x != k
  {
    var i, r := IndexOf(order, k), Without(order, k);
    if i < |order| {
      assert order == order[..i] + [k] + order[i + 1..];
    }
  }

  lemma TouchFacts(order: seq<Symbol>, k: Symbol)
    requires AllDifferent(order)
    ensures AllDifferent(Touch(order, k))
    ensures forall x :: x in Touch(order, k) <==> x in order || x == k
  {
    WithoutFacts(order, k);
  }

  /** The first key of the order that has a value stands at place `i`. */
  ghost predicate FirstAt(values: map<Symbol, Entry>, order: seq<Symbol>, i: nat)
    requires i < |order|
  {
    order[i] in values && forall j | 0 <= j < i :: order[j] !in values
  }

  /** One value too many: everything up to and including the first live key of the order goes. */
  lemma {:induction false} EvictFirstLive(values: map<Symbol, Entry>, order: seq<Symbol>, i: nat)
    requires |values| == CACHE_MAX_ENTRIES + 1 && i < |order| && FirstAt(values, order, i)
    ensures Evict(values, order) == Evicted(values - {order[i]}, order[i + 1..])
  {
    if i == 0 {
      assert (values - {order[0]}).Keys == values.Keys - {order[0]};
      assert |(values - {order[0]}).Keys| == CACHE_MAX_ENTRIES;
    } else {
      assert values - {order[0]} == values;
      EvictFirstLive(values, order[1..], i - 1);
      assert order[1..][i..] == order[i + 1..];
    }
  }

  /** The first place of the order that holds a live key, or |order|. */
  function FirstLive(values: map<Symbol, Entry>, order: seq<Symbol>): (i: nat)
    ensures i <= |order|
    ensures i < |order| ==> order[i] in values
    ensures forall j | 0 <= j < i :: order[j] !in values
  {
    if order == [] || order[0] in values then 0 else 1 + FirstLive(values, order[1..])
  }

  /** Writing `k` puts one value too many into the map. */
  ghost predicate Overflows(s: State, k: Symbol) {
    k !in s.values && |s.values| == CACHE_MAX_ENTRIES
  }

  lemma SomethingLive(s: State, values: map<Symbol, Entry>)
    requires Invariant(s) && |s.values| > 0 && s.values.Keys <= values.Keys
    ensures FirstLive(values, s.order) < |s.order|
  {
    var k :| k in s.values;
    assert k in s.order;
  }

  /** The values with k's new one, before any eviction. */
  function Added(s: State, k: Symbol, v: int, ttl: Option<nat>, now: nat): map<Symbol, Entry> {
    s.values[k := Entry(v, now + Ttl(ttl))]
  }

  lemma AddedSize(s: State, k: Symbol, e: Entry)
    ensures |s.values[k := e]| == if k in s.values then |s.values| else |s.values| + 1
  {
    assert s.values[k := e].Keys == s.values.Keys + {k};
    assert |s.values[k := e]| == |s.values[k := e].Keys| && |s.values| == |s.values.Keys|;
    if k in s.values { assert s.values.Keys + {k} == s.values.Keys; }
  }

  /** The key a write to a full cache removes: the first live key of the order, the new one counted as live. */
  function Victim(s: State, k: Symbol, v: int, ttl: Option<nat>, now: nat): nat {
    FirstLive(Added(s, k, v, ttl, now), s.order)
  }

  lemma WriteEvicts(s: State, k: Symbol, v: int, ttl: Option<nat>, now: nat)
    requires Invariant(s) && Ttl(ttl) > 0 && Overflows(s, k)
    ensures Victim(s, k, v, ttl, now) < |s.order|
    ensures Write(s, k, v, ttl, now) == AfterEviction(s, Added(s, k, v, ttl, now), Victim(s, k, v, ttl, now), k)
  {
    AddedSize(s, k, Entry(v, now + Ttl(ttl)));
    SomethingLive(s, Added(s, k, v, ttl, now));
    WriteEvictsAt(s, k, v, ttl, now, Victim(s, k, v, ttl, now));
  }

  lemma WriteEvictsAt(s: State, k: Symbol, v: int, ttl: Option<nat>, now: nat, i: nat)
    requires Ttl(ttl) > 0 && i < |s.order| && |Added(s, k, v, ttl, now)| == CACHE_MAX_ENTRIES + 1
    requires FirstAt(Added(s, k, v, ttl, now), s.order, i)
    ensures Write(s, k, v, ttl, now) == AfterEviction(s, Added(s, k, v, ttl, now), i, k)
  {
    EvictFirstLive(Added(s, k, v, ttl, now), s.order, i);
    WriteUnfolds(s, k, v, ttl, now, Added(s, k, v, ttl, now) - {s.order[i]}, s.order[i + 1..]);
  }

  lemma WriteUnfolds(s: State, k: Symbol, v: int, ttl: Option<nat>, now: nat, values: map<Symbol, Entry>,
                     order: seq<Symbol>)
    requires Ttl(ttl) > 0 && Evict(Added(s, k, v, ttl, now), s.order) == Evicted(values, order)
    ensures Write(s, k, v, ttl, now) == State(values, Touch(order, k), s.hits, s.misses)
  {
  }

  /** Everything up to place `i` leaves the order, the value of the key there goes, and `k` is touched. */
  function AfterEviction(s: State, values: map<Symbol, Entry>, i: nat, k: Symbol): State
    requires i < |s.order|
  {
    State(values - {s.order[i]}, Touch(s.order[i + 1..], k), s.hits, s.misses)
  }

  lemma WriteFits(s: State, k: Symbol, v: int, ttl: Option<nat>, now: nat)
    requires Invariant(s) && Ttl(ttl) > 0 && !Overflows(s, k)
    ensures |Added(s, k, v, ttl, now)| <= CACHE_MAX_ENTRIES
    ensures Write(s, k, v, ttl, now) == s.(values := Added(s, k, v, ttl, now), order := Touch(s.order, k))
  {
    AddedSize(s, k, Entry(v, now + Ttl(ttl)));
  }

  lemma StepKeepsInvariant(s: State, op: Op)
    requires Invariant(s)
    ensures Invariant(Step(s, op))
  {
    match op
    case SetOp(k, v, ttl, now) =>
      if Ttl(ttl) > 0 {
        if Overflows(s, k) {
          EvictingWriteKeepsInvariant(s, k, v, ttl, now);
        } else {
          WriteFits(s, k, v, ttl, now);
          TouchFacts(s.order, k);
        }
      }
    case GetOp(k, now) =>
      TouchFacts(s.order, k);
      RemovalSize(s.values, k);
    case InvalidateOp(k) =>
      WithoutFacts(s.order, k);
      RemovalSize(s.values, k);
  }

  lemma RemovalSize(values: map<Symbol, Entry>, k: Symbol)
    ensures |values - {k}| == if k in values then |values| - 1 else |values|
  {
    assert (values - {k}).Keys == values.Keys - {k};
    assert |values - {k}| == |(values - {k}).Keys|;
  }

  lemma EvictingWriteKeepsInvariant(s: State, k: Symbol, v: int, ttl: Option<nat>, now: nat)
    requires Invariant(s) && Ttl(ttl) > 0 && Overflows(s, k)
    ensures Invariant(Write(s, k, v, ttl, now))
  {
    WriteEvicts(s, k, v, ttl, now);
    AddedSize(s, k, Entry(v, now + Ttl(ttl)));
    AfterEvictionKeepsInvariant(s, Added(s, k, v, ttl, now), Victim(s, k, v, ttl, now), k);
  }

  lemma AfterEvictionKeepsInvariant(s: State, values: map<Symbol, Entry>, i: nat, k: Symbol)
    requires AllDifferent(s.order) && (forall x | x in values && x != k :: x in s.order)
    requires |values| == CACHE_MAX_ENTRIES + 1 && i < |s.order| && FirstAt(values, s.order, i)
    ensures Invariant(AfterEviction(s, values, i, k))
  {
    RemovalSize(values, s.order[i]);
    LiveBehind(values, s.order, i, k);
    CutKeepsAllDifferent(s.order, i + 1);
    TouchedInvariant(values - {s.order[i]}, s.order[i + 1..], k, s.hits, s.misses);
  }

  lemma CutKeepsAllDifferent(order: seq<Symbol>, n: nat)
    requires AllDifferent(order) && n <= |order|
    ensures AllDifferent(order[n..])
  {
  }

  lemma TouchedInvariant(values: map<Symbol, Entry>, order: seq<Symbol>, k: Symbol, hits: nat, misses: nat)
    requires AllDifferent(order) && |values| <= CACHE_MAX_ENTRIES
    requires forall x | x in values && x != k :: x in order
    ensures Invariant(State(values, Touch(order, k), hits, misses))
  {
    TouchFacts(order, k);
  }

  /** Cutting the order just behind its first live key leaves every other live key in it. */
  lemma LiveBehind(values: map<Symbol, Entry>, order: seq<Symbol>, i: nat, k: Symbol)
    requires forall x | x in values && x != k :: x in order
    requires i < |order| && FirstAt(values, order, i)
    ensures forall x | x in values - {order[i]} && x != k :: x in order[i + 1..]
  {
    forall x | x in values - {order[i]} && x != k
      ensures x in order[i + 1..]
    {
      var j :| 0 <= j < |order| && order[j] == x;
      assert order[i + 1..][j - i - 1] == x;
    }
  }

  /** In every run the order is free of duplicates and lists every cached key, and at most 64 values are stored. */
  lemma {:induction false} RunKeepsInvariant(s: State, ops: seq<Op>)
    requires Invariant(s)
    ensures Invariant(Run(s, ops))
  {
    if ops != [] {
      RunKeepsInvariant(s, ops[..|ops| - 1]);
      StepKeepsInvariant(Run(s, ops[..|ops| - 1]), ops[|ops| - 1]);
    }
  }

  lemma TouchKeepsOrder(order: seq<Symbol>, log: seq<Symbol>, k: Symbol)
    requires AllDifferent(order) && InTouchOrder(order, log)
    ensures InTouchOrder(Touch(order, k), log + [k])
  {
    WithoutFacts(order, k);
    WithoutKeepsOrder(order, log, k);
    var r := Without(order, k);
    assert (log + [k])[..|log|] == log;
    forall i | 0 <= i < |r|
      ensures LastIn(log + [k], r[i]) == LastIn(log, r[i])
    {
      assert r[i] in r;
    }
  }

  lemma WithoutKeepsOrder(order: seq<Symbol>, log: seq<Symbol>, k: Symbol)
    requires InTouchOrder(order, log)
    ensures InTouchOrder(Without(order, k), log)
  {
    var i, r := IndexOf(order, k), Without(order, k);
    assert forall j | 0 <= j < |r| :: r[j] == order[if j < i then j else j + 1];
  }

  lemma StepKeepsOrder(s: State, op: Op, log: seq<Symbol>)
    requires Invariant(s) && InTouchOrder(s.order, log)
    ensures var t := Touched(s, op); InTouchOrder(Step(s, op).order, log + if t.Some? then [t.value] else [])
  {
    assert log + [] == log;
    match op
    case GetOp(k, now) =>
      TouchKeepsOrder(s.order, log, k);
    case InvalidateOp(k) =>
      WithoutKeepsOrder(s.order, log, k);
    case SetOp(k, v, ttl, now) =>
      if Ttl(ttl) > 0 { WriteKeepsOrder(s, k, v, ttl, now, log); }
  }

  lemma EvictionKeepsOrder(s: State, values: map<Symbol, Entry>, i: nat, k: Symbol, log: seq<Symbol>)
    requires AllDifferent(s.order) && InTouchOrder(s.order, log) && i < |s.order|
    ensures InTouchOrder(AfterEviction(s, values, i, k).order, log + [k])
  {
    CutKeepsAllDifferent(s.order, i + 1);
    TouchKeepsOrder(s.order[i + 1..], log, k);
  }

  lemma WriteKeepsOrder(s: State, k: Symbol, v: int, ttl: Option<nat>, now: nat, log: seq<Symbol>)
    requires Invariant(s) && InTouchOrder(s.order, log) && Ttl(ttl) > 0
    ensures InTouchOrder(Write(s, k, v, ttl, now).order, log + [k])
  {
    if Overflows(s, k) {
      WriteEvicts(s, k, v, ttl, now);
      EvictionKeepsOrder(s, Added(s, k, v, ttl, now), Victim(s, k, v, ttl, now), k, log);
    } else {
      WriteFits(s, k, v, ttl, now);
      TouchKeepsOrder(s.order, log, k);
    }
  }

  /** In every run the order vector is the last-touch order of its keys. */
  lemma {:induction false} OrderIsTouchOrder(ops: seq<Op>)
    ensures InTouchOrder(Run(Empty, ops).order, TouchLog(Empty, ops))
  {
    if ops != [] {
      var before, op := ops[..|ops| - 1], ops[|ops| - 1];
      OrderIsTouchOrder(before);
      RunKeepsInvariant(Empty, before);
      StepKeepsOrder(Run(Empty, before), op, TouchLog(Empty, before));
    }
  }

  /**
   Eviction removes the least recently touched live key: when a write after any run overflows the
   cache, exactly one key with a value loses it, and every other live key that has been touched
   before was touched later.
   */
  lemma EvictsLeastRecentlyTouched(ops: seq<Op>, k: Symbol, v: int, ttl: Option<nat>, now: nat) returns (gone: Symbol)
    requires Ttl(ttl) > 0 && Overflows(Run(Empty, ops), k)
    ensures var s, log := Run(Empty, ops), TouchLog(Empty, ops); var live := s.values[k := Entry(v, now + Ttl(ttl))];
      && gone in live && gone in s.order
      && Write(s, k, v, ttl, now).values == live - {gone}
      && (forall x | x in live && x in s.order && x != gone :: LastIn(log, gone) < LastIn(log, x))
  {
    RunKeepsInvariant(Empty, ops);
    OrderIsTouchOrder(ops);
    gone := EvictsOldest(Run(Empty, ops), TouchLog(Empty, ops), k, v, ttl, now);
  }

  lemma EvictsOldest(s: State, log: seq<Symbol>, k: Symbol, v: int, ttl: Option<nat>, now: nat) returns (gone: Symbol)
    requires Invariant(s) && InTouchOrder(s.order, log) && Ttl(ttl) > 0 && Overflows(s, k)
    ensures var live := s.values[k := Entry(v, now + Ttl(ttl))];
      && gone in live && gone in s.order
      && Write(s, k, v, ttl, now).values == live - {gone}
      && (forall x | x in live && x in s.order && x != gone :: LastIn(log, gone) < LastIn(log, x))
  {
    WriteEvicts(s, k, v, ttl, now);
    gone := s.order[Victim(s, k, v, ttl, now)];
    FirstLiveIsOldest(Added(s, k, v, ttl, now), s.order, Victim(s, k, v, ttl, now), log);
  }

  lemma FirstLiveIsOldest(live: map<Symbol, Entry>, order: seq<Symbol>, i: nat, log: seq<Symbol>)
    requires InTouchOrder(order, log) && i < |order| && FirstAt(live, order, i)
    ensures forall x | x in live && x in order && x != order[i] :: LastIn(log, order[i]) < LastIn(log, x)
  {
    var gone := order[i];
    forall x | x in live && x in order && x != gone
      ensures LastIn(log, gone) < LastIn(log, x)
    {
      var j :| 0 <= j < |order| && order[j] == x;
    }
  }

  // ---------------------------------------------------------------------------
  // Reading back a write
  // ---------------------------------------------------------------------------

  /**
   The write of `k` disappears at once: the cache is full, `k` has no value but still a place in
   the order (left behind by an expired read), and every live key comes after that place.
   */
  predicate Lost(s: State, k: Symbol) {
    && |s.values| == CACHE_MAX_ENTRIES && k !in s.values && k in s.order
    && forall j | 0 <= j < IndexOf(s.order, k) :: s.order[j] !in s.values
  }

  /**
   A write followed by a read before the expiry returns the value exactly when the write was not
   lost; in particular always when `k` was live or had no place in the order.
   */
  lemma SetThenGet(s: State, k: Symbol, v: int, ttl: Option<nat>, t1: nat, t2: nat)
    requires Invariant(s) && Ttl(ttl) > 0 && t1 <= t2 <= t1 + Ttl(ttl)
    ensures Lookup(Write(s, k, v, ttl, t1), k, t2) == if Lost(s, k) then None else Some(v)
    ensures k in s.values || k !in s.order ==> !Lost(s, k)
  {
    if !Overflows(s, k) {
      WriteFits(s, k, v, ttl, t1);
    } else {
      SetThenGetOverflowing(s, k, v, ttl, t1, t2);
    }
  }

  lemma SetThenGetOverflowing(s: State, k: Symbol, v: int, ttl: Option<nat>, t1: nat, t2: nat)
    requires Invariant(s) && Ttl(ttl) > 0 && t1 <= t2 <= t1 + Ttl(ttl) && Overflows(s, k)
    ensures Lookup(Write(s, k, v, ttl, t1), k, t2) == if Lost(s, k) then None else Some(v)
  {
    WriteEvicts(s, k, v, ttl, t1);
    VictimIsOwn(s, k, Entry(v, t1 + Ttl(ttl)));
    LookupAfterEviction(s, k, v, ttl, t1, t2, Victim(s, k, v, ttl, t1));
  }

  lemma LookupAfterEviction(s: State, k: Symbol, v: int, ttl: Option<nat>, t1: nat, t2: nat, i: nat)
    requires t1 <= t2 <= t1 + Ttl(ttl) && i < |s.order|
    ensures Lookup(AfterEviction(s, Added(s, k, v, ttl, t1), i, k), k, t2) ==
        if s.order[i] == k then None else Some(v)
  {
  }

  /** The first live key, with `k` just written, is `k` itself exactly when no key before its place has a value. */
  lemma VictimIsOwn(s: State, k: Symbol, e: Entry)
    requires Overflows(s, k) && FirstLive(s.values[k := e], s.order) < |s.order|
    ensures s.order[FirstLive(s.values[k := e], s.order)] == k <==> Lost(s, k)
  {
    var live := s.values[k := e];
    var i, p := FirstLive(live, s.order), IndexOf(s.order, k);
    if s.order[i] == k {
      assert forall j | 0 <= j < i :: s.order[j] !in live;
    } else if p < |s.order| {
      assert s.order[p] in live && i <= p;
    }
  }

  // ---------------------------------------------------------------------------
  // Staying cached
  // ---------------------------------------------------------------------------

  ghost predicate LeavesAlone(op: Op, k: Symbol) {
    op.key != k
  }

  ghost function KeysTouched(s: State, ops: seq<Op>): set<Symbol> {
    if ops == [] then {}
    else
      var t := Touched(Run(s, ops[..|ops| - 1]), ops[|ops| - 1]);
      KeysTouched(s, ops[..|ops| - 1]) + if t.Some? then {t.value} else {}
  }

  /** `k` has the value `e` and place `p` in the order, behind which only keys of `later` stand. */
  ghost predicate Placed(s: State, k: Symbol, e: Entry, p: nat, later: set<Symbol>) {
    && k in s.values && s.values[k] == e
    && p < |s.order| && s.order[p] == k
    && forall j | p < j < |s.order| :: s.order[j] in later
  }

  lemma PlacedWithout(s: State, k: Symbol, e: Entry, p: nat, later: set<Symbol>, x: Symbol) returns (p': nat)
    requires AllDifferent(s.order) && Placed(s, k, e, p, later) && x != k
    ensures Placed(s.(order := Without(s.order, x)), k, e, p', later)
  {
    var o := IndexOf(s.order, x);
    p' := if o < p then p - 1 else p;
    var r := Without(s.order, x);
    assert forall j | 0 <= j < |r| :: r[j] == s.order[if j < o then j else j + 1];
  }

  lemma PlacedTouch(s: State, k: Symbol, e: Entry, p: nat, later: set<Symbol>, x: Symbol) returns (p': nat)
    requires AllDifferent(s.order) && Placed(s, k, e, p, later) && x != k
    ensures Placed(s.(order := Touch(s.order, x)), k, e, p', later + {x})
  {
    p' := PlacedWithout(s, k, e, p, later, x);
  }

  /** When 65 values are stored and fewer than 64 keys can stand behind `k`, a live key stands before it. */
  lemma LiveBefore(s: State, k: Symbol, e: Entry, p: nat, later: set<Symbol>, x: Symbol, ex: Entry)
    requires Invariant(s) && Placed(s, k, e, p, later) && x != k && Overflows(s, x)
    requires |later + {x}| < CACHE_MAX_ENTRIES
    ensures FirstLive(s.values[x := ex], s.order) < p
  {
    var live := s.values[x := ex];
    if FirstLive(live, s.order) >= p {
      forall y | y in live
        ensures y in {k} + (later + {x})
      {
        if y != x {
          var j :| 0 <= j < |s.order| && s.order[j] == y;
        }
      }
      SubsetSize(live.Keys, {k} + (later + {x}));
      AddedSize(s, x, ex);
      assert false;
    }
  }

  lemma StepKeepsPlaced(s: State, op: Op, k: Symbol, e: Entry, p: nat, later: set<Symbol>) returns (p': nat)
    requires Invariant(s) && Placed(s, k, e, p, later) && LeavesAlone(op, k)
    requires var t := Touched(s, op); t.Some? ==> |later + {t.value}| < CACHE_MAX_ENTRIES
    ensures var t := Touched(s, op); Placed(Step(s, op), k, e, p', later + if t.Some? then {t.value} else {})
  {
    p' := p;
    match op
    case InvalidateOp(x) =>
      p' := PlacedWithout(s.(values := s.values - {x}), k, e, p, later, x);
    case GetOp(x, now) =>
      if Touched(s, op).Some? {
        p' := PlacedTouch(s.(hits := s.hits + 1), k, e, p, later, x);
      }
    case SetOp(x, v, ttl, now) =>
      if Ttl(ttl) > 0 {
        if Overflows(s, x) {
          p' := EvictingWriteKeepsPlaced(s, x, v, ttl, now, k, e, p, later);
        } else {
          WriteFits(s, x, v, ttl, now);
          p' := PlacedTouch(s.(values := Added(s, x, v, ttl, now)), k, e, p, later, x);
        }
      }
  }

  lemma PlacedCut(s: State, k: Symbol, e: Entry, p: nat, later: set<Symbol>, values: map<Symbol, Entry>, i: nat)
    requires AllDifferent(s.order) && Placed(s, k, e, p, later) && i < p
    requires k in values && values[k] == e
    ensures Placed(s.(values := values, order := s.order[i + 1..]), k, e, p - i - 1, later)
    ensures AllDifferent(s.order[i + 1..])
  {
  }

  lemma EvictingWriteKeepsPlaced(s: State, x: Symbol, v: int, ttl: Option<nat>, now: nat,
                                 k: Symbol, e: Entry, p: nat, later: set<Symbol>) returns (p': nat)
    requires Invariant(s) && Placed(s, k, e, p, later) && x != k
    requires Ttl(ttl) > 0 && Overflows(s, x) && |later + {x}| < CACHE_MAX_ENTRIES
    ensures Placed(Write(s, x, v, ttl, now), k, e, p', later + {x})
  {
    WriteEvicts(s, x, v, ttl, now);
    LiveBefore(s, k, e, p, later, x, Entry(v, now + Ttl(ttl)));
    p' := EvictionKeepsPlaced(s, Added(s, x, v, ttl, now), Victim(s, x, v, ttl, now), x, k, e, p, later);
  }

  lemma EvictionKeepsPlaced(s: State, values: map<Symbol, Entry>, i: nat, x: Symbol,
                            k: Symbol, e: Entry, p: nat, later: set<Symbol>) returns (p': nat)
    requires AllDifferent(s.order) && Placed(s, k, e, p, later) && i < p && x != k
    requires k in values && values[k] == e
    ensures Placed(AfterEviction(s, values, i, x), k, e, p', later + {x})
  {
    var s1 := s.(values := values - {s.order[i]}, order := s.order[i + 1..]);
    PlacedCut(s, k, e, p, later, s1.values, i);
    p' := PlacedTouch(s1, k, e, p - i - 1, later, x);
  }

  lemma {:induction false} RunKeepsPlaced(s: State, ops: seq<Op>, k: Symbol, e: Entry, p: nat) returns (p': nat)
    requires Invariant(s) && Placed(s, k, e, p, {})
    requires forall op | op in ops :: LeavesAlone(op, k)
    requires |KeysTouched(s, ops)| < CACHE_MAX_ENTRIES
    ensures Placed(Run(s, ops), k, e, p', KeysTouched(s, ops))
  {
    p' := p;
    if ops != [] {
      var before, op := ops[..|ops| - 1], ops[|ops| - 1];
      assert ops == before + [op];
      SubsetSize(KeysTouched(s, before), KeysTouched(s, ops));
      p' := RunKeepsPlaced(s, before, k, e, p);
      RunKeepsInvariant(s, before);
      p' := StepKeepsPlaced(Run(s, before), op, k, e, p', KeysTouched(s, before));
    }
  }

  /**
   A write that was not lost stays readable until it expires, through every run of operations on
   other keys that touches fewer than 64 different ones.
   */
  lemma WriteStaysReadable(pre: seq<Op>, k: Symbol, v: int, ttl: Option<nat>, t1: nat, ops: seq<Op>, t2: nat)
    requires Ttl(ttl) > 0 && t1 <= t2 <= t1 + Ttl(ttl)
    requires !Lost(Run(Empty, pre), k)
    requires forall op | op in ops :: LeavesAlone(op, k)
    requires |KeysTouched(Write(Run(Empty, pre), k, v, ttl, t1), ops)| < CACHE_MAX_ENTRIES
    ensures Lookup(Run(Write(Run(Empty, pre), k, v, ttl, t1), ops), k, t2) == Some(v)
  {
    var s := Run(Empty, pre);
    RunKeepsInvariant(Empty, pre);
    SetThenGet(s, k, v, ttl, t1, t1);
    StepKeepsInvariant(s, SetOp(k, v, ttl, t1));
    var s1 := Write(s, k, v, ttl, t1);
    if Overflows(s, k) { WriteEvicts(s, k, v, ttl, t1); } else { WriteFits(s, k, v, ttl, t1); }
    var p := RunKeepsPlaced(s1, ops, k, Entry(v, t1 + Ttl(ttl)), |s1.order| - 1);
  }

  // ---------------------------------------------------------------------------
  // Reads and the history
  // ---------------------------------------------------------------------------

  /** How long a write lasts: its own seconds, or else thirty. */
  function LifeSecs(op: Op): nat
    requires op.SetOp?
  {
    match op.ttl
    case Some(secs) => secs
    case None => 30
  }

  /** The operation writes `k`: a write that is to last no time is refused. */
  predicate Writes(op: Op, k: Symbol) {
    op.SetOp? && op.key == k && LifeSecs(op) > 0
  }

  /** The last operation that wrote or invalidated `k`, or |ops|. */
  function LastChange(ops: seq<Op>, k: Symbol): (i: nat)
    ensures i <= |ops|
  {
    if ops == [] then 0
    else
      var n := |ops| - 1;
      if Writes(ops[n], k) || (ops[n].InvalidateOp? && ops[n].key == k) then n
      else
        var i := LastChange(ops[..n], k);
        if i < n then i else |ops|
  }

  /** `k` was written at some time and not invalidated since, and the time it was to last is not over. */
  ghost predicate Fresh(ops: seq<Op>, k: Symbol, now: nat) {
    var i := LastChange(ops, k);
    i < |ops| && Writes(ops[i], k) && now <= ops[i].now + LifeSecs(ops[i])
  }

  /**
   The operation writes a new key to the full cache, and among the keys that have a value then and a
   place in the order, `k` was touched longest ago.
   */
  ghost predicate Evicts(before: seq<Op>, op: Op, k: Symbol) {
    var s, log := Run(Empty, before), TouchLog(Empty, before);
    && op.SetOp? && LifeSecs(op) > 0 && op.key !in s.values && |s.values| == 64
    && (k in s.values || k == op.key) && k in s.order
    && forall x | (x in s.values || x == op.key) && x in s.order && x != k :: LastIn(log, k) < LastIn(log, x)
  }

  /** `k` was written, and no operation since, that one included, invalidated it, found it expired or evicted it. */
  ghost predicate Survives(ops: seq<Op>, k: Symbol) {
    ops != [] &&
    var before, op := ops[..|ops| - 1], ops[|ops| - 1];
    && !Evicts(before, op, k)
    && (Writes(op, k) ||
        (&& Survives(before, k) && !(op.InvalidateOp? && op.key == k)
         && !(op.GetOp? && op.key == k && !Fresh(before, k, op.now))))
  }

  /** What is held for `k` is what its last write put there. */
  ghost predicate HeldAsWritten(ops: seq<Op>, k: Symbol) {
    var s, i := Run(Empty, ops), LastChange(ops, k);
    k in s.values ==>
      i < |ops| && Writes(ops[i], k) && s.values[k] == Entry(ops[i].value, ops[i].now + LifeSecs(ops[i]))
  }

  /** A write that makes one value too many evicts exactly the key that `Evicts` describes. */
  lemma OverflowingWrite(before: seq<Op>, op: Op, k: Symbol)
    requires op.SetOp? && LifeSecs(op) > 0 && Overflows(Run(Empty, before), op.key)
    ensures var s, s' := Run(Empty, before), Step(Run(Empty, before), op);
      && (k in s'.values <==> (k in s.values || k == op.key) && !Evicts(before, op, k))
      && (k in s'.values ==>
            s'.values[k] == if k == op.key then Entry(op.value, op.now + LifeSecs(op)) else s.values[k])
  {
    var s, log := Run(Empty, before), TouchLog(Empty, before);
    var gone := EvictsLeastRecentlyTouched(before, op.key, op.value, op.ttl, op.now);
    SetStep(s, op);
    OldestIsOne(s.values.Keys + {op.key}, s.order, log, gone, k);
    assert Evicts(before, op, k) <==> k == gone;
  }

  /** The step of a write, told by the seconds it is to last. */
  lemma SetStep(s: State, op: Op)
    requires op.SetOp?
    ensures Step(s, op) == Write(s, op.key, op.value, op.ttl, op.now) && Ttl(op.ttl) == LifeSecs(op)
  {
  }

  lemma OldestIsOne(live: set<Symbol>, order: seq<Symbol>, log: seq<Symbol>, gone: Symbol, k: Symbol)
    requires gone in live && gone in order
    requires forall x | x in live && x in order && x != gone :: LastIn(log, gone) < LastIn(log, x)
    ensures k == gone <==>
        k in live && k in order && forall x | x in live && x in order && x != k :: LastIn(log, k) < LastIn(log, x)
  {
  }

  lemma WrittenWhole(s: State, k: Symbol, v: int, ttl: Option<nat>, now: nat)
    requires Invariant(s) && Ttl(ttl) > 0 && !Overflows(s, k)
    ensures Write(s, k, v, ttl, now).values == s.values[k := Entry(v, now + Ttl(ttl))]
  {
    WriteFits(s, k, v, ttl, now);
  }

  lemma LastChangeUnfolds(ops: seq<Op>, k: Symbol)
    requires ops != []
    ensures var before, op, i := ops[..|ops| - 1], ops[|ops| - 1], LastChange(ops[..|ops| - 1], k);
      LastChange(ops, k) ==
        if Writes(op, k) || (op.InvalidateOp? && op.key == k) then |before|
        else if i < |before| then i else |ops|
  {
  }

  /** What is held, exactly. */
  lemma {:induction false} HeldExactly(ops: seq<Op>, k: Symbol)
    ensures k in Run(Empty, ops).values <==> Survives(ops, k)
    ensures HeldAsWritten(ops, k)
  {
    if ops != [] {
      var before, op := ops[..|ops| - 1], ops[|ops| - 1];
      HeldExactly(before, k);
      LastChangeUnfolds(ops, k);
      match op
      case SetOp(key, v, ttl, now) =>
        if LifeSecs(op) > 0 {
          if Overflows(Run(Empty, before), op.key) {
            OverflowingWrite(before, op, k);
          } else {
            RunKeepsInvariant(Empty, before);
            WrittenWhole(Run(Empty, before), key, v, ttl, now);
          }
        }
      case GetOp(x, now) => HeldIsFresh(before, k, now);
      case InvalidateOp(_) =>
    }
  }

  lemma HeldIsFresh(ops: seq<Op>, k: Symbol, now: nat)
    requires HeldAsWritten(ops, k)
    ensures k in Run(Empty, ops).values ==>
        (Lookup(Run(Empty, ops), k, now).Some? <==> Fresh(ops, k, now))
  {
  }

  /**
   The cache against its history: after any run, with any clock, a read of `k` returns the value last
   written for `k` if that was not invalidated, the time it was to last is not over, and it was neither
   found expired nor evicted since or by its own write; otherwise it returns nothing.
   */
  lemma ReadsHistory(ops: seq<Op>, k: Symbol, now: nat)
    ensures Lookup(Run(Empty, ops), k, now) ==
      if Fresh(ops, k, now) && Survives(ops, k) then Some(ops[LastChange(ops, k)].value) else None
  {
    HeldExactly(ops, k);
    HeldIsFresh(ops, k, now);
  }

  /** Invalidation also gives up the key's place in the order, and leaves all other places and values. */
  lemma InvalidationForgets(ops: seq<Op>, k: Symbol, x: Symbol, now: nat)
    ensures var s, s' := Run(Empty, ops), Run(Empty, ops + [InvalidateOp(k)]);
      && Lookup(s', k, now) == None && k !in s'.order && !Lost(s', k)
      && (x != k ==> Lookup(s', x, now) == Lookup(s, x, now) && (x in s'.order <==> x in s.order))
  {
    RunAppend(Empty, ops, InvalidateOp(k));
    RunKeepsInvariant(Empty, ops);
    WithoutFacts(Run(Empty, ops).order, k);
  }

  function Gets(ops: seq<Op>): nat {
    if ops == [] then 0 else Gets(ops[..|ops| - 1]) + if ops[|ops| - 1].GetOp? then 1 else 0
  }

  /** Every read is counted once, as a hit exactly when it returned a value. */
  lemma {:induction false} ReadsAreCounted(ops: seq<Op>)
    ensures var s := Run(Empty, ops); s.hits + s.misses == Gets(ops)
    ensures ops != [] ==>
      var s, op := Run(Empty, ops[..|ops| - 1]), ops[|ops| - 1];
      Run(Empty, ops).hits == s.hits + if op.GetOp? && Lookup(s, op.key, op.now).Some? then 1 else 0
  {
    if ops != [] {
      ReadsAreCounted(ops[..|ops| - 1]);
    }
  }

  // ---------------------------------------------------------------------------
  // Lost writes happen
  // ---------------------------------------------------------------------------

  lemma WithoutFresh(order: seq<Symbol>, k: Symbol)
    requires k !in order
    ensures Without(order, k) == order
  {
  }

  ghost predicate Filled(s: State, n: nat) {
    && Invariant(s)
    && |s.order| == n + 1 && s.order[0] == 0
    && (forall k | k in s.order :: k <= n) && (forall k | k in s.values :: k <= n)
    && |s.values| == n + 1 && 0 in s.values && s.values[0] == Entry(0, 1)
  }

  lemma RunAppend(s: State, ops: seq<Op>, op: Op)
    ensures Run(s, ops + [op]) == Step(Run(s, ops), op)
  {
    assert (ops + [op])[..|ops|] == ops;
  }

  lemma FillStep(s: State, n: nat)
    requires 0 < n < CACHE_MAX_ENTRIES && Filled(s, n - 1)
    ensures Filled(Write(s, n, n, Some(100), 0), n)
  {
    StepKeepsInvariant(s, SetOp(n, n, Some(100), 0));
    WriteFits(s, n, n, Some(100), 0);
    AddedSize(s, n, Entry(n, 100));
    WithoutFresh(s.order, n);
  }

  lemma FirstWrite() returns (s: State)
    ensures s == Write(Empty, 0, 0, Some(1), 0) && Filled(s, 0)
  {
    s := Write(Empty, 0, 0, Some(1), 0);
    StepKeepsInvariant(Empty, SetOp(0, 0, Some(1), 0));
    WriteFits(Empty, 0, 0, Some(1), 0);
    AddedSize(Empty, 0, Entry(0, 1));
  }

  /** Writes keys 0 to n at time 0; key 0 lives for one second, the others for a hundred. */
  lemma {:induction false} FillCache(n: nat) returns (ops: seq<Op>)
    requires n < CACHE_MAX_ENTRIES
    ensures Filled(Run(Empty, ops), n)
  {
    if n == 0 {
      var s := FirstWrite();
      ops := [] + [SetOp(0, 0, Some(1), 0)];
      RunAppend(Empty, [], SetOp(0, 0, Some(1), 0));
    } else {
      var before := FillCache(n - 1);
      FillStep(Run(Empty, before), n);
      ops := before + [SetOp(n, n, Some(100), 0)];
      RunAppend(Empty, before, SetOp(n, n, Some(100), 0));
    }
  }

  /** A run after which a value written with an hour to live is gone when it is read at once. */
  lemma LostWriteIsReachable() returns (ops: seq<Op>)
    ensures Lost(Run(Empty, ops), 0)
    ensures Lookup(Write(Run(Empty, ops), 0, 7, Some(3600), 5), 0, 5) == None
  {
    var fill := FillCache(63);
    LoseKeyZero(Run(Empty, fill));
    var a := fill + [GetOp(0, 5)];
    RunAppend(Empty, fill, GetOp(0, 5));
    ops := a + [SetOp(64, 64, Some(100), 5)];
    RunAppend(Empty, a, SetOp(64, 64, Some(100), 5));
    RunKeepsInvariant(Empty, ops);
    SetThenGet(Run(Empty, ops), 0, 7, Some(3600), 5, 5);
  }

  lemma LoseKeyZero(s: State)
    requires Filled(s, 63)
    ensures Lost(Write(Read(s, 0, 5), 64, 64, Some(100), 5), 0)
  {
    var s1 := Read(s, 0, 5);
    RemovalSize(s.values, 0);
    StepKeepsInvariant(s, GetOp(0, 5));
    WriteFits(s1, 64, 64, Some(100), 5);
    AddedSize(s1, 64, Entry(64, 105));
    WithoutFresh(s1.order, 64);
  }
}
