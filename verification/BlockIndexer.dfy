/**
 The parallel block indexer (stellar-lend/indexing_system/src/parallel_indexer.rs).

 A dispatcher cuts a block interval into tasks, workers finish them in any order, and the
 StateManager releases for commit only the contiguous run of results that starts at a
 contract's frontier.  Reorganisations pull the frontier back.
 */
module BlockIndexer {

  type Contract = string

  // `id` stands for the (transaction hash, log index) pair the events table is unique in.
  datatype Event = Event(contract: Contract, block: nat, id: nat, data: string)

  datatype BlockRange = Task(contract: Contract, from: nat, to: nat)
  type Task = t: BlockRange | t.from <= t.to witness Task("", 0, 0)

  datatype Result = Result(task: Task, events: seq<Event>)

  type Key = (Contract, nat)
  type Pending = map<Key, Result>

  // ---------------------------------------------------------------------------
  // Specification of the StateManager
  // ---------------------------------------------------------------------------

  datatype State = State(frontier: map<Contract, nat>, pending: Pending)

  datatype Drained = Drained(ready: seq<Result>, pending: Pending, next: nat)

  /** Removes results from `pending` for as long as one starts exactly at `next`. */
  function Drain(c: Contract, next: nat, pending: Pending): Drained
    decreases |pending|
  {
    if (c, next) in pending then
      var r := pending[(c, next)];
      var smaller := pending - {(c, next)};
      assert smaller.Keys == pending.Keys - {(c, next)};
      assert |smaller.Keys| < |pending.Keys|;
      var rest := Drain(c, r.task.to + 1, smaller);
      Drained([r] + rest.ready, rest.pending, rest.next)
    else
      Drained([], pending, next)
  }

  lemma DrainUnfolds(c: Contract, next: nat, pending: Pending)
    requires (c, next) in pending
    ensures var r := pending[(c, next)]; var rest := Drain(c, r.task.to + 1, pending - {(c, next)});
      Drain(c, next, pending) == Drained([r] + rest.ready, rest.pending, rest.next)
    ensures |pending - {(c, next)}| < |pending|
  {
    assert (pending - {(c, next)}).Keys == pending.Keys - {(c, next)};
    assert |(pending - {(c, next)}).Keys| < |pending.Keys|;
  }

  /** Draining the rest completes what was drained so far to `all`. */
  ghost predicate Continues(all: Drained, ready: seq<Result>, c: Contract, next: nat, pending: Pending) {
    var rest := Drain(c, next, pending);
    all == Drained(ready + rest.ready, rest.pending, rest.next)
  }

  lemma DrainContinues(all: Drained, ready: seq<Result>, c: Contract, next: nat, pending: Pending)
    requires Continues(all, ready, c, next, pending) && (c, next) in pending
    ensures var r := pending[(c, next)];
      Continues(all, ready + [r], c, r.task.to + 1, pending - {(c, next)})
    ensures |pending - {(c, next)}| < |pending|
  {
    DrainUnfolds(c, next, pending);
    var r := pending[(c, next)];
    var rest := Drain(c, r.task.to + 1, pending - {(c, next)});
    assert ready + ([r] + rest.ready) == ready + [r] + rest.ready;
  }

  datatype Registered = Registered(state: State, ready: seq<Result>)

  function Register(s: State, r: Result): Registered {
    var c := r.task.contract;
    var p := s.pending[(c, r.task.from) := r];
    if c !in s.frontier then
      Registered(State(s.frontier, p), [])
    else
      var d := Drain(c, s.frontier[c], p);
      Registered(State(s.frontier[c := d.next], d.pending), d.ready)
  }

  function Min(a: nat, b: nat): nat { if a < b then a else b }

  function Rollback(s: State, block: nat): State {
    State(map c | c in s.frontier :: Min(s.frontier[c], block),
          map k | k in s.pending && k.1 < block :: s.pending[k])
  }

  function FromPairs(pairs: seq<(Contract, nat)>): map<Contract, nat> {
    if pairs == [] then map[]
    else FromPairs(pairs[..|pairs| - 1])[pairs[|pairs| - 1].0 := pairs[|pairs| - 1].1]
  }

  class StateManager {
    var frontier: map<Contract, nat>
    var pending: Pending

    ghost function Model(): State
      reads this
    {
      State(frontier, pending)
    }

    constructor (initial: seq<(Contract, nat)>)
      ensures Model() == State(FromPairs(initial), map[])
    {
      frontier, pending := map[], map[];
      new;
      for i := 0 to |initial|
        invariant frontier == FromPairs(initial[..i])
        invariant pending == map[]
      {
        frontier := frontier[initial[i].0 := initial[i].1];
        assert initial[..i + 1][..i] == initial[..i];
      }
      assert initial[..|initial|] == initial;
    }

    method RegisterResult(result: Result) returns (ready: seq<Result>)
      modifies this
      ensures Model() == Register(old(Model()), result).state
      ensures ready == Register(old(Model()), result).ready
    {
      var contract := result.task.contract;
      pending := pending[(contract, result.task.from) := result];
      ready := [];
      if contract !in frontier {
        return;
      }
      var start := frontier[contract];
      var next: nat := start;
      ghost var all := Drain(contract, start, pending);
      assert [] + all.ready == all.ready;
      while (contract, next) in pending
        invariant frontier == old(frontier)
        invariant Continues(all, ready, contract, next, pending)
        decreases |pending|
      {
        var r := pending[(contract, next)];
        DrainContinues(all, ready, contract, next, pending);
        pending := pending - {(contract, next)};
        next := r.task.to + 1;
        ready := ready + [r];
      }
      assert all == Drained(ready, pending, next);
      if next != start {
        frontier := frontier[contract := next];
      }
    }

    method RollbackTo(block: nat)
      modifies this
      ensures Model() == Rollback(old(Model()), block)
    {
      var todo := frontier.Keys;
      while todo != {}
        invariant frontier.Keys == old(frontier).Keys
        invariant todo <= frontier.Keys
        invariant pending == old(pending)
        invariant forall c | c in frontier ::
            frontier[c] == if c in todo then old(frontier)[c] else Min(old(frontier)[c], block)
        decreases todo
      {
        var c :| c in todo;
        if frontier[c] > block {
          frontier := frontier[c := block];
        }
        todo := todo - {c};
      }
      pending := map k | k in pending && k.1 < block :: pending[k];
    }
  }

  // ---------------------------------------------------------------------------
  // What a released slice looks like
  // ---------------------------------------------------------------------------

  /** Every pending result is filed under its own contract and first block. */
  ghost predicate Keyed(pending: Pending) {
    forall k | k in pending :: pending[k].task.contract == k.0 && pending[k].task.from == k.1
  }

  /** `rs` are ranges of contract `c` that follow each other without gap from `from` up to, not including, `end`. */
  ghost predicate Chain(rs: seq<Result>, c: Contract, from: nat, end: nat) {
    if rs == [] then from == end
    else rs[0].task.contract == c && rs[0].task.from == from && Chain(rs[1..], c, rs[0].task.to + 1, end)
  }

  lemma {:induction false} ChainAppend(a: seq<Result>, b: seq<Result>, c: Contract, x: nat, y: nat, z: nat)
    requires Chain(a, c, x, y) && Chain(b, c, y, z)
    ensures Chain(a + b, c, x, z)
  {
    if a == [] {
      assert a + b == b;
    } else {
      ChainAppend(a[1..], b, c, a[0].task.to + 1, y, z);
      assert (a + b)[1..] == a[1..] + b;
    }
  }

  ghost predicate Covers(r: Result, block: nat) {
    r.task.from <= block <= r.task.to
  }

  lemma {:induction false} ChainBounds(rs: seq<Result>, c: Contract, from: nat, end: nat)
    requires Chain(rs, c, from, end)
    ensures from <= end
    ensures forall i | 0 <= i < |rs| :: rs[i].task.contract == c && from <= rs[i].task.from && rs[i].task.to < end
  {
    if rs != [] {
      ChainBounds(rs[1..], c, rs[0].task.to + 1, end);
      forall i | 0 <= i < |rs|
        ensures rs[i].task.contract == c && from <= rs[i].task.from && rs[i].task.to < end
      {
        if i > 0 { assert rs[i] == rs[1..][i - 1]; }
      }
    }
  }

  /** The ranges of a chain cover each block between its ends exactly once, and nothing else. */
  lemma {:induction false} ChainPartitions(rs: seq<Result>, c: Contract, from: nat, end: nat, b: nat)
    requires Chain(rs, c, from, end)
    ensures forall i, j | 0 <= i < j < |rs| :: rs[i].task.to < rs[j].task.from
    ensures from <= b < end <==> exists i :: 0 <= i < |rs| && Covers(rs[i], b)
  {
    ChainBounds(rs, c, from, end);
    if rs != [] {
      var rest := rs[1..];
      ChainBounds(rest, c, rs[0].task.to + 1, end);
      ChainPartitions(rest, c, rs[0].task.to + 1, end, b);
      forall i, j | 0 <= i < j < |rs|
        ensures rs[i].task.to < rs[j].task.from
      {
        assert rs[j] == rest[j - 1];
        if i > 0 { assert rs[i] == rest[i - 1]; }
      }
      if from <= b < end {
        if b <= rs[0].task.to {
          assert Covers(rs[0], b);
        } else {
          var i :| 0 <= i < |rest| && Covers(rest[i], b);
          assert Covers(rs[i + 1], b);
        }
      }
    }
  }

  /** `d` takes a maximal chain from `next` out of `pending`, and nothing else. */
  ghost predicate MaximalChain(c: Contract, next: nat, pending: Pending, d: Drained) {
    && Chain(d.ready, c, next, d.next)
    && (c, d.next) !in d.pending
    && (forall k | k in d.pending :: k in pending && d.pending[k] == pending[k])
    && (forall k | k in pending && (k.0 != c || k.1 < next) :: k in d.pending)
    && (forall k | k in pending && k !in d.pending :: pending[k] in d.ready)
    && (forall r | r in d.ready :: (c, r.task.from) in pending && pending[(c, r.task.from)] == r)
  }

  lemma {:induction false} DrainReleasesMaximalChain(c: Contract, next: nat, pending: Pending)
    requires Keyed(pending)
    ensures MaximalChain(c, next, pending, Drain(c, next, pending))
    ensures Keyed(Drain(c, next, pending).pending)
    decreases |pending|
  {
    if (c, next) in pending {
      var r := pending[(c, next)];
      var smaller := pending - {(c, next)};
      assert smaller.Keys == pending.Keys - {(c, next)};
      assert |smaller.Keys| < |pending.Keys|;
      DrainReleasesMaximalChain(c, r.task.to + 1, smaller);
      MaximalChainStep(c, next, pending, Drain(c, r.task.to + 1, smaller));
    }
  }

  lemma MaximalChainStep(c: Contract, next: nat, pending: Pending, rest: Drained)
    requires Keyed(pending) && (c, next) in pending
    requires MaximalChain(c, pending[(c, next)].task.to + 1, pending - {(c, next)}, rest)
    ensures MaximalChain(c, next, pending, Drained([pending[(c, next)]] + rest.ready, rest.pending, rest.next))
  {
    var r := pending[(c, next)];
    assert ([r] + rest.ready)[1..] == rest.ready;
    assert r.task.contract == c && r.task.from == next;
  }

  ghost predicate NothingAtFrontier(s: State) {
    forall c | c in s.frontier :: (c, s.frontier[c]) !in s.pending
  }

  ghost predicate WellFormed(s: State) {
    Keyed(s.pending) && NothingAtFrontier(s)
  }

  /**
   register_result returns the maximal chain from the frontier that the pending results and the
   new one form, moves the frontier to its end, and leaves every other contract alone.
   */
  lemma RegisterAdvancesFrontier(s: State, r: Result)
    requires WellFormed(s)
    ensures var c := r.task.contract; var out := Register(s, r);
      && WellFormed(out.state)
      && out.state.frontier.Keys == s.frontier.Keys
      && (forall x | x in s.frontier && x != c :: out.state.frontier[x] == s.frontier[x])
      && (c in s.frontier ==> Chain(out.ready, c, s.frontier[c], out.state.frontier[c]))
      && (c !in s.frontier ==> out.ready == [])
      && (forall x | x in out.ready :: x == r || x in s.pending.Values)
      && (forall k | k in out.state.pending ::
            out.state.pending[k] == r || (k in s.pending && out.state.pending[k] == s.pending[k]))
  {
    var c := r.task.contract;
    var p := s.pending[(c, r.task.from) := r];
    if c in s.frontier {
      DrainReleasesMaximalChain(c, s.frontier[c], p);
      ChainBounds(Drain(c, s.frontier[c], p).ready, c, s.frontier[c], Drain(c, s.frontier[c], p).next);
    }
  }

  // ---------------------------------------------------------------------------
  // The dispatcher
  // ---------------------------------------------------------------------------

  ghost predicate Contiguous(ts: seq<Task>, c: Contract) {
    && (forall i | 0 <= i < |ts| :: ts[i].contract == c)
    && (forall i, j | 0 <= i < j < |ts| && j == i + 1 :: ts[j].from == ts[i].to + 1)
  }

  /** `ts` cuts [from, tip] into ranges of `batch` blocks, the last one possibly shorter. */
  ghost predicate ExactTiling(ts: seq<Task>, c: Contract, from: nat, tip: nat, batch: nat) {
    && Contiguous(ts, c)
    && (forall i | 0 <= i < |ts| - 1 :: ts[i].to == ts[i].from + batch - 1)
    && (|ts| > 0 ==> ts[|ts| - 1].to < ts[|ts| - 1].from + batch)
    && (if from > tip then ts == [] else |ts| > 0 && ts[0].from == from && ts[|ts| - 1].to == tip)
  }

  /** One contract's round of the dispatcher loop. */
  method Dispatch(contract: Contract, fromBlock: nat, confirmedTip: nat, batchSize: nat) returns (tasks: seq<Task>)
    requires batchSize >= 1
    ensures ExactTiling(tasks, contract, fromBlock, confirmedTip, batchSize)
  {
    tasks := [];
    var batchStart := fromBlock;
    while batchStart <= confirmedTip
      invariant Contiguous(tasks, contract)
      invariant forall i | 0 <= i < |tasks| - 1 :: tasks[i].to == tasks[i].from + batchSize - 1
      invariant tasks == [] ==> batchStart == fromBlock
      invariant tasks != [] ==>
          var last := tasks[|tasks| - 1];
          && tasks[0].from == fromBlock && fromBlock <= confirmedTip
          && last.to <= confirmedTip && batchStart == last.to + 1
          && last.to < last.from + batchSize
          && (batchStart <= confirmedTip ==> last.to == last.from + batchSize - 1)
      decreases confirmedTip + 1 - batchStart
    {
      var batchEnd := Min(batchStart + batchSize - 1, confirmedTip);
      tasks := tasks + [Task(contract, batchStart, batchEnd)];
      batchStart := batchEnd + 1;
    }
  }

  lemma {:induction false} ContiguousAscends(ts: seq<Task>, c: Contract, i: nat, j: nat)
    requires Contiguous(ts, c) && i < j < |ts|
    ensures ts[i].to < ts[j].from
    decreases j
  {
    if i < j - 1 { ContiguousAscends(ts, c, i, j - 1); }
  }

  /** The tiling is determined by the interval and the batch size. */
  lemma {:induction false} TilingIsUnique(a: seq<Task>, b: seq<Task>, c: Contract, from: nat, tip: nat, batch: nat)
    requires batch >= 1
    requires ExactTiling(a, c, from, tip, batch) && ExactTiling(b, c, from, tip, batch)
    ensures a == b
  {
    if from <= tip {
      TilingPrefix(a, b, c, from, tip, batch, Min(|a|, |b|));
      var n := Min(|a|, |b|);
      if |a| < |b| {
        assert a[n - 1].from == b[n - 1].from;
        ContiguousAscends(b, c, n - 1, |b| - 1);
      } else if |b| < |a| {
        assert a[n - 1].from == b[n - 1].from;
        ContiguousAscends(a, c, n - 1, |a| - 1);
      } else {
        assert a[n - 1].from == b[n - 1].from;
        assert forall i | 0 <= i < |a| :: a[i] == b[i];
      }
    }
  }

  lemma {:induction false} TilingPrefix(a: seq<Task>, b: seq<Task>, c: Contract, from: nat, tip: nat, batch: nat,
                                        n: nat)
    requires batch >= 1 && from <= tip && n <= |a| && n <= |b|
    requires ExactTiling(a, c, from, tip, batch) && ExactTiling(b, c, from, tip, batch)
    ensures forall i | 0 <= i < n :: a[i].from == b[i].from
  {
    if n > 0 {
      TilingPrefix(a, b, c, from, tip, batch, n - 1);
      if n > 1 {
        assert a[n - 1].from == a[n - 2].to + 1 == a[n - 2].from + batch;
        assert b[n - 1].from == b[n - 2].to + 1 == b[n - 2].from + batch;
      }
    }
  }

  // ---------------------------------------------------------------------------
  // Ordered release, whatever order the workers finish in
  // ---------------------------------------------------------------------------

  function RegisterAll(s: State, rs: seq<Result>): State {
    if rs == [] then s
    else Register(RegisterAll(s, rs[..|rs| - 1]), rs[|rs| - 1]).state
  }

  /** The slices returned for contract `c` while `rs` is registered, concatenated. */
  function Released(s: State, rs: seq<Result>, c: Contract): seq<Result> {
    if rs == [] then []
    else
      var before := rs[..|rs| - 1];
      var r := rs[|rs| - 1];
      Released(s, before, c) + if r.task.contract == c then Register(RegisterAll(s, before), r).ready else []
  }

  function TasksOf(rs: seq<Result>): seq<Task> {
    seq(|rs|, i requires 0 <= i < |rs| => rs[i].task)
  }

  /** The first block of tile `k`, or the block after the last tile. */
  function TileStart(ts: seq<Task>, k: nat): nat
    requires ts != [] && k <= |ts|
  {
    if k < |ts| then ts[k].from else ts[|ts| - 1].to + 1
  }

  /** From tile `k` on, contract `c` has exactly the tiles in `seen` pending. */
  ghost predicate PendingTiles(p: Pending, c: Contract, ts: seq<Task>, seen: set<Task>, k: nat) {
    && Keyed(p)
    && (forall key | key in p && key.0 == c :: p[key].task in ts)
    && (forall j | k <= j < |ts| :: (c, ts[j].from) in p <==> ts[j] in seen)
  }

  lemma PendingAtTile(p: Pending, c: Contract, ts: seq<Task>, seen: set<Task>, k: nat)
    requires ts != [] && Contiguous(ts, c) && k <= |ts| && PendingTiles(p, c, ts, seen, k)
    requires (c, TileStart(ts, k)) in p
    ensures k < |ts| && p[(c, TileStart(ts, k))].task == ts[k] && ts[k] in seen
  {
    var key := (c, TileStart(ts, k));
    var j :| 0 <= j < |ts| && ts[j] == p[key].task;
    if k == |ts| {
      if j < |ts| - 1 { ContiguousAscends(ts, c, j, |ts| - 1); }
      assert false;
    } else if j < k {
      ContiguousAscends(ts, c, j, k);
      assert false;
    } else if j > k {
      ContiguousAscends(ts, c, k, j);
      assert false;
    }
  }

  lemma PendingTilesStep(p: Pending, c: Contract, ts: seq<Task>, seen: set<Task>, k: nat)
    requires Contiguous(ts, c) && k < |ts| && PendingTiles(p, c, ts, seen, k)
    ensures PendingTiles(p - {(c, ts[k].from)}, c, ts, seen, k + 1)
  {
    forall j | k + 1 <= j < |ts|
      ensures (c, ts[j].from) in p - {(c, ts[k].from)} <==> ts[j] in seen
    {
      ContiguousAscends(ts, c, k, j);
    }
  }

  /** The drain `d` released exactly tiles k to k' - 1, all of them seen, and stopped at a tile not seen. */
  ghost predicate DrainedTiles(d: Drained, c: Contract, ts: seq<Task>, seen: set<Task>, k: nat, k': nat)
    requires ts != []
  {
    && k <= k' <= |ts|
    && (forall j | k <= j < k' :: ts[j] in seen)
    && (k' < |ts| ==> ts[k'] !in seen)
    && TasksOf(d.ready) == ts[k..k']
    && d.next == TileStart(ts, k')
    && PendingTiles(d.pending, c, ts, seen, k')
  }

  lemma TasksOfAppend(a: seq<Result>, b: seq<Result>)
    ensures TasksOf(a + b) == TasksOf(a) + TasksOf(b)
  {
  }

  lemma {:induction false} DrainTiles(p: Pending, c: Contract, ts: seq<Task>, seen: set<Task>, k: nat) returns (k': nat)
    requires ts != [] && Contiguous(ts, c) && k <= |ts| && PendingTiles(p, c, ts, seen, k)
    ensures DrainedTiles(Drain(c, TileStart(ts, k), p), c, ts, seen, k, k')
    decreases |ts| - k
  {
    var key := (c, TileStart(ts, k));
    if key in p {
      PendingAtTile(p, c, ts, seen, k);
      PendingTilesStep(p, c, ts, seen, k);
      k' := DrainTiles(p - {key}, c, ts, seen, k + 1);
      DrainedTilesStep(p, c, ts, seen, k, k');
    } else {
      k' := k;
      DrainedNothing(p, c, ts, seen, k);
    }
  }

  lemma DrainedNothing(p: Pending, c: Contract, ts: seq<Task>, seen: set<Task>, k: nat)
    requires ts != [] && k <= |ts| && PendingTiles(p, c, ts, seen, k)
    requires (c, TileStart(ts, k)) !in p
    ensures DrainedTiles(Drain(c, TileStart(ts, k), p), c, ts, seen, k, k)
  {
  }

  lemma DrainedTilesStep(p: Pending, c: Contract, ts: seq<Task>, seen: set<Task>, k: nat, k': nat)
    requires ts != [] && k < |ts| && ts[k] in seen
    requires (c, ts[k].from) in p && p[(c, ts[k].from)].task == ts[k]
    requires Contiguous(ts, c)
    requires DrainedTiles(Drain(c, TileStart(ts, k + 1), p - {(c, ts[k].from)}), c, ts, seen, k + 1, k')
    ensures DrainedTiles(Drain(c, TileStart(ts, k), p), c, ts, seen, k, k')
  {
    DrainUnfolds(c, TileStart(ts, k), p);
    var r := p[(c, ts[k].from)];
    assert ts[k].to + 1 == TileStart(ts, k + 1);
    var d := Drain(c, TileStart(ts, k + 1), p - {(c, ts[k].from)});
    TasksOfAppend([r], d.ready);
    assert TasksOf([r]) == [r.task];
    assert [ts[k]] + ts[k + 1..k'] == ts[k..k'];
  }

  ghost function Seen(rs: seq<Result>): set<Task> {
    set t | t in TasksOf(rs)
  }

  lemma SeenAppend(rs: seq<Result>, r: Result)
    ensures TasksOf(rs + [r]) == TasksOf(rs) + [r.task]
    ensures Seen(rs + [r]) == Seen(rs) + {r.task}
  {
  }

  /**
   Whatever the order and however often results of the tiles are registered, and whatever other
   contracts' results come between, the slices returned so far concatenate to the first `k`
   tiles in ascending order, where tile `k` is the first one not registered yet.
   */
  lemma {:induction false} ReleasesRegisteredPrefix(s: State, rs: seq<Result>, c: Contract, ts: seq<Task>)
    returns (k: nat)
    requires ts != [] && Contiguous(ts, c)
    requires Keyed(s.pending) && c in s.frontier && s.frontier[c] == ts[0].from
    requires forall key | key in s.pending :: key.0 != c
    requires forall r | r in rs && r.task.contract == c :: r.task in ts
    ensures k <= |ts|
    ensures TasksOf(Released(s, rs, c)) == ts[..k]
    ensures forall j | 0 <= j < k :: ts[j] in TasksOf(rs)
    ensures k < |ts| ==> ts[k] !in TasksOf(rs)
    ensures var s' := RegisterAll(s, rs);
      && c in s'.frontier && s'.frontier[c] == TileStart(ts, k)
      && PendingTiles(s'.pending, c, ts, Seen(rs), k)
  {
    if rs == [] {
      k := 0;
    } else {
      var before, r := rs[..|rs| - 1], rs[|rs| - 1];
      assert rs == before + [r];
      SeenAppend(before, r);
      var k0 := ReleasesRegisteredPrefix(s, before, c, ts);
      var s0 := RegisterAll(s, before);
      if r.task.contract == c {
        k := TileRegistered(s0, r, c, ts, Seen(before), k0);
        TasksOfAppend(Released(s, before, c), Register(s0, r).ready);
        assert ts[..k0] + ts[k0..k] == ts[..k];
        assert forall j | 0 <= j < k :: ts[j] in Seen(rs);
      } else {
        k := k0;
        OtherContractKeepsTiles(s0, r, c, ts, Seen(before), k);
        assert r.task !in ts;
      }
    }
  }

  lemma TileRegistered(s: State, r: Result, c: Contract, ts: seq<Task>, seen: set<Task>, k0: nat) returns (k: nat)
    requires ts != [] && Contiguous(ts, c) && k0 <= |ts| && r.task in ts && r.task.contract == c
    requires c in s.frontier && s.frontier[c] == TileStart(ts, k0) && PendingTiles(s.pending, c, ts, seen, k0)
    ensures c in Register(s, r).state.frontier
    ensures var n := Register(s, r);
      DrainedTiles(Drained(n.ready, n.state.pending, n.state.frontier[c]), c, ts, seen + {r.task}, k0, k)
  {
    PendingTilesInsert(s.pending, c, ts, seen, k0, r);
    k := DrainTiles(s.pending[(c, r.task.from) := r], c, ts, seen + {r.task}, k0);
  }

  lemma PendingTilesInsert(p: Pending, c: Contract, ts: seq<Task>, seen: set<Task>, k: nat, r: Result)
    requires Contiguous(ts, c) && PendingTiles(p, c, ts, seen, k)
    requires r.task in ts
    ensures PendingTiles(p[(c, r.task.from) := r], c, ts, seen + {r.task}, k)
  {
    var j :| 0 <= j < |ts| && ts[j] == r.task;
    forall i | k <= i < |ts|
      ensures (c, ts[i].from) in p[(c, r.task.from) := r] <==> ts[i] in seen + {r.task}
    {
      if i < j { ContiguousAscends(ts, c, i, j); } else if j < i { ContiguousAscends(ts, c, j, i); }
    }
  }

  lemma OtherContractKeepsTiles(s: State, r: Result, c: Contract, ts: seq<Task>, seen: set<Task>, k: nat)
    requires r.task.contract != c && c in s.frontier && PendingTiles(s.pending, c, ts, seen, k)
    ensures PendingTiles(Register(s, r).state.pending, c, ts, seen, k)
    ensures c in Register(s, r).state.frontier && Register(s, r).state.frontier[c] == s.frontier[c]
  {
    var rc := r.task.contract;
    if rc in s.frontier {
      DrainReleasesMaximalChain(rc, s.frontier[rc], s.pending[(rc, r.task.from) := r]);
    }
  }

  /**
   The ordering guarantee: once a result for every task of the dispatched interval has been
   registered, in any order, with any repeats, the slices returned concatenate to the tasks in
   ascending order and the frontier is the block after the tip.
   */
  lemma AllTilesReleasedInOrder(s: State, rs: seq<Result>, c: Contract, ts: seq<Task>, from: nat, tip: nat, batch: nat)
    requires batch >= 1 && from <= tip && ExactTiling(ts, c, from, tip, batch)
    requires Keyed(s.pending) && c in s.frontier && s.frontier[c] == from
    requires forall key | key in s.pending :: key.0 != c
    requires forall r | r in rs && r.task.contract == c :: r.task in ts
    requires forall t | t in ts :: t in TasksOf(rs)
    ensures TasksOf(Released(s, rs, c)) == ts
    ensures c in RegisterAll(s, rs).frontier && RegisterAll(s, rs).frontier[c] == tip + 1
  {
    var k := ReleasesRegisteredPrefix(s, rs, c, ts);
    assert k == |ts|;
    assert ts[..k] == ts;
  }

  // ---------------------------------------------------------------------------
  // Rollback
  // ---------------------------------------------------------------------------

  datatype ManagerOp = RegisterOp(result: Result) | RollbackOp(block: nat)

  function ManagerStep(s: State, op: ManagerOp): State {
    match op
    case RegisterOp(r) => Register(s, r).state
    case RollbackOp(b) => Rollback(s, b)
  }

  function ManagerRun(s: State, ops: seq<ManagerOp>): State {
    if ops == [] then s else ManagerStep(ManagerRun(s, ops[..|ops| - 1]), ops[|ops| - 1])
  }

  /** Results of `c` that were not registered during `ops` lie below the frontier. */
  ghost predicate OldResultsBehind(s: State, c: Contract, ops: seq<ManagerOp>) {
    && WellFormed(s)
    && c in s.frontier
    && (forall k | k in s.pending && k.0 == c :: RegisterOp(s.pending[k]) in ops || k.1 < s.frontier[c])
  }

  lemma {:induction false} OldResultsStayBehind(s: State, c: Contract, ops: seq<ManagerOp>)
    requires OldResultsBehind(s, c, [])
    ensures OldResultsBehind(ManagerRun(s, ops), c, ops)
  {
    if ops != [] {
      var before, op := ops[..|ops| - 1], ops[|ops| - 1];
      assert ops == before + [op];
      OldResultsStayBehind(s, c, before);
      var s0 := ManagerRun(s, before);
      if op.RegisterOp? {
        RegisterAdvancesFrontier(s0, op.result);
        if op.result.task.contract == c {
          ChainBounds(Register(s0, op.result).ready, c, s0.frontier[c], Register(s0, op.result).state.frontier[c]);
        }
      }
    }
  }

  /**
   After rollback_to(block), a contract whose frontier was beyond `block` only ever gets back
   results that were registered after the rollback: nothing that was pending at the rollback is
   returned by `r`'s registration, whatever registrations and rollbacks came in between.
   */
  lemma RollbackForgetsPending(s: State, c: Contract, block: nat, ops: seq<ManagerOp>, r: Result)
    requires WellFormed(s) && c in s.frontier && s.frontier[c] > block
    ensures forall x | x in Register(ManagerRun(Rollback(s, block), ops), r).ready && x.task.contract == c ::
        x == r || RegisterOp(x) in ops
  {
    var s1 := Rollback(s, block);
    OldResultsStayBehind(s1, c, ops);
    var s2 := ManagerRun(s1, ops);
    RegisterAdvancesFrontier(s2, r);
    if r.task.contract == c {
      var p := s2.pending[(c, r.task.from) := r];
      DrainReleasesMaximalChain(c, s2.frontier[c], p);
      var d := Drain(c, s2.frontier[c], p);
      ChainBounds(d.ready, c, s2.frontier[c], d.next);
      forall x | x in d.ready
        ensures x == r || RegisterOp(x) in ops
      {
        assert p[(c, x.task.from)] == x;
      }
    } else if r.task.contract in s2.frontier {
      ChainBounds(Register(s2, r).ready, r.task.contract, s2.frontier[r.task.contract],
                  Register(s2, r).state.frontier[r.task.contract]);
    }
  }

  ghost predicate ReturnedLater(s: State, old_: Result, ops: seq<ManagerOp>, r: Result) {
    && old_ in Register(ManagerRun(s, ops), r).ready
    && r != old_
    && RegisterOp(old_) !in ops
  }

  /**
   Exactly which results survive a rollback for good: a pending result can still be returned
   after rollback_to(block), without being registered again, if and only if it starts before
   `block` and its contract's frontier has not passed it.  The test looks at the first block
   only, so a result that reaches past `block` is among them.
   */
  lemma SurvivorsOfRollback(s: State, k: Key, block: nat)
    requires WellFormed(s) && k in s.pending && k.0 in s.frontier
    ensures (exists ops, r :: ReturnedLater(Rollback(s, block), s.pending[k], ops, r))
        <==> s.frontier[k.0] <= k.1 < block
  {
    var c, old_ := k.0, s.pending[k];
    var s1 := Rollback(s, block);
    if s.frontier[c] <= k.1 < block {
      // The gap before the survivor, filled by one registration, releases it.
      var f := s1.frontier[c];
      assert f == s.frontier[c] < k.1;
      var filler := Result(Task(c, f, k.1 - 1), []);
      var p := s1.pending[(c, f) := filler];
      assert k in p && p[k] == old_;
      var smaller := p - {(c, f)};
      assert Drain(c, k.1, smaller).ready[0] == old_;
      assert Drain(c, f, p).ready == [filler] + Drain(c, k.1, smaller).ready;
      assert old_ == Drain(c, f, p).ready[1];
      assert ManagerRun(s1, []) == s1;
      assert ReturnedLater(s1, old_, [], filler);
    } else if exists ops, r :: ReturnedLater(s1, old_, ops, r) {
      var ops, r :| ReturnedLater(s1, old_, ops, r);
      NotReturned(s, k, block, ops, r);
      assert false;
    }
  }

  /** Below the frontier, or dropped by the rollback: never returned without being registered again. */
  lemma NotReturned(s: State, k: Key, block: nat, ops: seq<ManagerOp>, r: Result)
    requires WellFormed(s) && k in s.pending && k.0 in s.frontier
    requires !(s.frontier[k.0] <= k.1 < block)
    ensures !ReturnedLater(Rollback(s, block), s.pending[k], ops, r)
  {
    var c, old_ := k.0, s.pending[k];
    var s1 := Rollback(s, block);
    OnlyBehind(s1, old_, ops);
    var s2 := ManagerRun(s1, ops);
    var rc := r.task.contract;
    if RegisterOp(old_) !in ops && rc in s2.frontier {
      var p := s2.pending[(rc, r.task.from) := r];
      DrainReleasesMaximalChain(rc, s2.frontier[rc], p);
      var d := Drain(rc, s2.frontier[rc], p);
      ChainBounds(d.ready, rc, s2.frontier[rc], d.next);
    }
  }

  ghost predicate BehindOnly(s: State, x: Result) {
    && WellFormed(s)
    && x.task.contract in s.frontier
    && (forall k | k in s.pending && s.pending[k] == x :: k.1 < s.frontier[x.task.contract])
  }

  lemma {:induction false} OnlyBehind(s: State, x: Result, ops: seq<ManagerOp>)
    requires BehindOnly(s, x)
    ensures RegisterOp(x) !in ops ==> BehindOnly(ManagerRun(s, ops), x)
  {
    if ops != [] && RegisterOp(x) !in ops {
      var before, op := ops[..|ops| - 1], ops[|ops| - 1];
      assert ops == before + [op];
      OnlyBehind(s, x, before);
      var s0 := ManagerRun(s, before);
      if op.RegisterOp? {
        var c := op.result.task.contract;
        RegisterAdvancesFrontier(s0, op.result);
        if c in s0.frontier {
          ChainBounds(Register(s0, op.result).ready, c, s0.frontier[c], Register(s0, op.result).state.frontier[c]);
        }
      }
    }
  }

  /** The result starts before the block and reaches it. */
  predicate Straddles(r: Result, block: nat) {
    r.task.from < block <= r.task.to
  }

  /**
   A rollback discards every pending result that overlaps the reorganised range if and only if no
   pending result straddles the block.
   */
  lemma RollbackDiscardsOverlapsExactly(s: State, block: nat)
    requires Keyed(s.pending)
    ensures (forall k | k in Rollback(s, block).pending :: Rollback(s, block).pending[k].task.to < block)
        <==> (forall k | k in s.pending :: !Straddles(s.pending[k], block))
  {
    var kept := Rollback(s, block).pending;
    if k :| k in s.pending && Straddles(s.pending[k], block) {
      assert k in kept && kept[k].task.to >= block;
    }
  }

  /** A run in which a result that straddles the block of a rollback is released after it. */
  lemma StraddlingResultComesBack(c: Contract) returns (x: Result, block: nat, filler: Result)
    ensures Straddles(x, block)
    ensures x in Register(ManagerRun(State(map[c := 0], map[]), [RegisterOp(x), RollbackOp(block)]), filler).ready
  {
    x, block, filler := Result(Task(c, 2, 6), []), 4, Result(Task(c, 0, 1), []);
    HeldThroughRollback(c, x, block);
    GapFilled(c, filler, x);
  }

  lemma HeldThroughRollback(c: Contract, x: Result, block: nat)
    requires x.task.contract == c && 0 < x.task.from < block
    ensures ManagerRun(State(map[c := 0], map[]), [RegisterOp(x), RollbackOp(block)]) ==
        State(map[c := 0], map[(c, x.task.from) := x])
  {
    var s0 := State(map[c := 0], map[]);
    var held: Pending := map[(c, x.task.from) := x];
    assert Drain(c, 0, held) == Drained([], held, 0);
    assert Register(s0, x).state == State(map[c := 0], held);
    assert Rollback(State(map[c := 0], held), block) == State(map[c := 0], held);
    assert [RegisterOp(x), RollbackOp(block)][..1] == [RegisterOp(x)];
    assert ManagerRun(s0, [RegisterOp(x)]) == ManagerStep(ManagerRun(s0, []), RegisterOp(x));
  }

  lemma GapFilled(c: Contract, filler: Result, x: Result)
    requires filler.task.contract == c && filler.task.from == 0 && filler.task.to + 1 == x.task.from
    ensures x in Register(State(map[c := 0], map[(c, x.task.from) := x]), filler).ready
  {
    var held: Pending := map[(c, x.task.from) := x];
    var p := held[(c, 0) := filler];
    DrainUnfolds(c, 0, p);
    assert p - {(c, 0)} == held;
    DrainUnfolds(c, x.task.from, held);
  }
}
