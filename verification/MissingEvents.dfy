/**
 Which events are missing from the repository: in any run of the pipeline, and after a reorganisation
 during which the commit loop went on (stellar-lend/indexing_system/src/parallel_indexer.rs).
 */
module MissingEvents {
  import opened BlockIndexer
  import opened CommitPipeline
  import opened InterruptedReorg

  // ---------------------------------------------------------------------------
  // Genuine events
  // ---------------------------------------------------------------------------

  /** The events are of the task's contract and blocks, and an identity names one place on the chain. */
  ghost predicate Genuine(r: Result, place: nat -> (Contract, nat)) {
    Honest(r) && forall e | e in r.events :: place(e.id) == (e.contract, e.block)
  }

  ghost predicate GenuineOps(ops: seq<Op>, place: nat -> (Contract, nat)) {
    forall op | op in ops && op.ReceiveOp? :: Genuine(op.result, place)
  }

  ghost predicate AllGenuine(t: Tracked, place: nat -> (Contract, nat)) {
    && (forall k | k in t.sys.sm.pending :: Genuine(t.sys.sm.pending[k], place))
    && (forall r | r in t.sys.queue :: Genuine(r, place))
    && LogGenuine(t, place) && StoreGenuine(t.sys.repo.stored, place)
  }

  ghost predicate LogGenuine(t: Tracked, place: nat -> (Contract, nat)) {
    forall c, r | c in t.log && r in t.log[c] :: Genuine(r, place)
  }

  ghost predicate StoreGenuine(stored: map<nat, Event>, place: nat -> (Contract, nat)) {
    forall id | id in stored :: place(id) == (stored[id].contract, stored[id].block)
  }

  lemma ReadyIsGenuine(s: State, r: Result, place: nat -> (Contract, nat))
    requires WellFormed(s) && Genuine(r, place) && forall k | k in s.pending :: Genuine(s.pending[k], place)
    ensures var out := Register(s, r);
      && (forall x | x in out.ready :: Genuine(x, place))
      && (forall k | k in out.state.pending :: Genuine(out.state.pending[k], place))
  {
    RegisterAdvancesFrontier(s, r);
    forall x | x in Register(s, r).ready
      ensures Genuine(x, place)
    {
      if x != r { var k :| k in s.pending && s.pending[k] == x; }
    }
  }

  lemma InsertKeepsGenuine(stored: map<nat, Event>, r: Result, place: nat -> (Contract, nat))
    requires StoreGenuine(stored, place) && Genuine(r, place)
    ensures StoreGenuine(InsertEvents(stored, r.events), place)
  {
    InsertedEvents(stored, r.events);
  }

  lemma ReceiveKeepsGenuine(t: Tracked, r: Result, place: nat -> (Contract, nat))
    requires Ordered(t) && AllGenuine(t, place) && Genuine(r, place)
    ensures AllGenuine(TrackedStep(t, ReceiveOp(r)), place)
  {
    ReadyIsGenuine(t.sys.sm, r, place);
  }

  lemma StepKeepsGenuine(t: Tracked, op: Op, place: nat -> (Contract, nat))
    requires Ordered(t) && AllGenuine(t, place) && (op.ReceiveOp? ==> Genuine(op.result, place))
    ensures AllGenuine(TrackedStep(t, op), place)
  {
    if op.ReceiveOp? {
      ReceiveKeepsGenuine(t, op.result, place);
    } else if op.StoreOp? && t.sys.queue != [] {
      InsertKeepsGenuine(t.sys.repo.stored, t.sys.queue[0], place);
    } else if t.sys.queue != [] {
      assert forall r | r in t.sys.queue[1..] :: r in t.sys.queue;
    }
  }

  lemma {:induction false} RunKeepsGenuine(t: Tracked, ops: seq<Op>, place: nat -> (Contract, nat))
    requires Ordered(t) && AllGenuine(t, place) && GenuineOps(ops, place)
    ensures Ordered(TrackedRun(t, ops)) && AllGenuine(TrackedRun(t, ops), place)
  {
    RunKeepsOrdered(t, ops);
    if ops != [] {
      var before, op := ops[..|ops| - 1], ops[|ops| - 1];
      assert ops == before + [op];
      RunKeepsGenuine(t, before, place);
      StepKeepsGenuine(TrackedRun(t, before), op, place);
    }
  }

  lemma {:induction false} TrackedRunOn(t: Tracked, a: seq<Op>, b: seq<Op>)
    ensures TrackedRun(t, a + b) == TrackedRun(TrackedRun(t, a), b)
  {
    if b == [] {
      assert a + b == a;
    } else {
      TrackedRunOn(t, a, b[..|b| - 1]);
      assert (a + b)[..|a + b| - 1] == a + b[..|b| - 1];
    }
  }

  // ---------------------------------------------------------------------------
  // Any run
  // ---------------------------------------------------------------------------

  /** The step stores the first waiting batch, and the batch has an event of this identity. */
  ghost predicate Stores(sys: System, op: Op, id: nat) {
    op.StoreOp? && sys.queue != [] && !sys.eventsStored && exists e :: e in sys.queue[0].events && e.id == id
  }

  /** The step deletes the events of this block. */
  predicate Deletes(op: Op, block: nat) {
    (op.ReorgOp? || op.DeleteOp?) && op.block <= block
  }

  /** Some step of the run stores the event, and no later one deletes its block. */
  ghost predicate StoredForGood(sys: System, ops: seq<Op>, id: nat, block: nat) {
    exists k :: StoredAt(sys, ops, k, id, block)
  }

  ghost predicate StoredAt(sys: System, ops: seq<Op>, k: int, id: nat, block: nat) {
    && 0 <= k < |ops| && Stores(Run(sys, ops[..k]), ops[k], id)
    && forall j | k < j < |ops| :: !Deletes(ops[j], block)
  }

  lemma StoredEarlier(sys: System, ops: seq<Op>, k: nat, id: nat, block: nat)
    requires k < |ops| - 1
    ensures StoredAt(sys, ops, k, id, block) <==>
        StoredAt(sys, ops[..|ops| - 1], k, id, block) && !Deletes(ops[|ops| - 1], block)
  {
    var before := ops[..|ops| - 1];
    assert before[..k] == ops[..k] && before[k] == ops[k];
    assert forall j | k < j < |before| :: before[j] == ops[j];
  }

  lemma StoredForGoodUnfolds(sys: System, ops: seq<Op>, id: nat, block: nat)
    requires ops != []
    ensures var before, op := ops[..|ops| - 1], ops[|ops| - 1];
      StoredForGood(sys, ops, id, block) <==>
      Stores(Run(sys, before), op, id) || (StoredForGood(sys, before, id, block) && !Deletes(op, block))
  {
    var n := |ops| - 1;
    assert StoredAt(sys, ops, n, id, block) <==> Stores(Run(sys, ops[..n]), ops[n], id);
    forall k: nat | k < n
      ensures StoredAt(sys, ops, k, id, block) <==>
          StoredAt(sys, ops[..n], k, id, block) && !Deletes(ops[n], block)
    {
      StoredEarlier(sys, ops, k, id, block);
    }
  }

  lemma StepStores(t: Tracked, op: Op, id: nat, place: nat -> (Contract, nat))
    requires AllGenuine(t, place)
    ensures id in Step(t.sys, op).repo.stored <==>
        Stores(t.sys, op, id) || (id in t.sys.repo.stored && !Deletes(op, place(id).1))
  {
    if op.StoreOp? && t.sys.queue != [] && !t.sys.eventsStored {
      var stored, events := t.sys.repo.stored, t.sys.queue[0].events;
      InsertedEvents(stored, events);
      if id in InsertEvents(stored, events) && id !in stored {
        assert InsertEvents(stored, events)[id] in events;
      }
    }
  }

  /**
   In every run from a loaded state, however reorganisations and failures fall: an event is stored at
   the end if and only if some step stored a batch that has it and no later step deleted its block.
   */
  lemma {:induction false} StoredExactly(rows: map<Contract, int>, ops: seq<Op>, id: nat,
                                         place: nat -> (Contract, nat))
    requires (forall x | x in rows :: rows[x] >= -1) && GenuineOps(ops, place)
    ensures id in Run(Initial(rows).sys, ops).repo.stored <==>
        StoredForGood(Initial(rows).sys, ops, id, place(id).1)
  {
    if ops != [] {
      var before, op, t := ops[..|ops| - 1], ops[|ops| - 1], Initial(rows);
      assert ops == before + [op];
      StoredExactly(rows, before, id, place);
      RunKeepsGenuine(t, before, place);
      TrackedRunIsRun(t, before);
      StepStores(TrackedRun(t, before), op, id, place);
      StoredForGoodUnfolds(t.sys, ops, id, place(id).1);
    }
  }

  // ---------------------------------------------------------------------------
  // Nothing missing
  // ---------------------------------------------------------------------------

  /** The released batches whose events are still to be stored. */
  function ToStore(sys: System): seq<Result> {
    if sys.eventsStored && sys.queue != [] then sys.queue[1..] else sys.queue
  }

  /** Of every range released since its contract's last rollback, all events are stored or still to be. */
  ghost predicate NothingMissing(t: Tracked) {
    forall c, r, e | c in t.log && r in t.log[c] && e in r.events ::
      e.id in t.sys.repo.stored || r in ToStore(t.sys)
  }

  lemma ReadyIsReleased(t: Tracked, r: Result)
    requires Ordered(t) && t.sys.queue == []
    ensures var t', c := TrackedStep(t, ReceiveOp(r)), r.task.contract;
      && t'.sys.repo == t.sys.repo && ToStore(t'.sys) == t'.sys.queue == Register(t.sys.sm, r).ready
      && t'.log.Keys == t.log.Keys && (forall x | x in t.log && x != c :: t'.log[x] == t.log[x])
      && (c in t.log ==> t'.log[c] == t.log[c] + t'.sys.queue) && (c !in t.log ==> t'.sys.queue == [])
  {
    RegisterAdvancesFrontier(t.sys.sm, r);
  }

  lemma WaitsOrWasThere(t: Tracked, r: Result, c: Contract, x: Result)
    requires Ordered(t) && t.sys.queue == []
    requires var t' := TrackedStep(t, ReceiveOp(r)); c in t'.log && x in t'.log[c]
    ensures var t' := TrackedStep(t, ReceiveOp(r));
      t'.sys.repo == t.sys.repo && (x in ToStore(t'.sys) || (c in t.log && x in t.log[c]))
  {
    ReadyIsReleased(t, r);
  }

  lemma ReceiveMissesNothing(t: Tracked, r: Result)
    requires Ordered(t) && NothingMissing(t)
    ensures NothingMissing(TrackedStep(t, ReceiveOp(r)))
  {
    if t.sys.queue == [] {
      var t' := TrackedStep(t, ReceiveOp(r));
      forall c, x, e | c in t'.log && x in t'.log[c] && e in x.events
        ensures e.id in t'.sys.repo.stored || x in ToStore(t'.sys)
      {
        WaitsOrWasThere(t, r, c, x);
      }
    }
  }

  lemma StoreMissesNothing(t: Tracked)
    requires NothingMissing(t)
    ensures NothingMissing(TrackedStep(t, StoreOp))
  {
    var sys := t.sys;
    if sys.queue != [] && !sys.eventsStored {
      InsertedEvents(sys.repo.stored, sys.queue[0].events);
      assert forall r | r in sys.queue :: r == sys.queue[0] || r in sys.queue[1..];
    }
  }

  lemma PointKeepsToStore(sys: System)
    ensures ToStore(PointNext(sys)) == ToStore(sys)
  {
  }

  lemma StepMissesNothing(t: Tracked, op: Op)
    requires Ordered(t) && NothingMissing(t) && (op.ReceiveOp? || op.StoreOp? || op.PointOp?)
    ensures NothingMissing(TrackedStep(t, op))
  {
    match op
    case ReceiveOp(r) => ReceiveMissesNothing(t, r);
    case StoreOp => StoreMissesNothing(t);
    case PointOp => PointKeepsToStore(t.sys);
  }

  // ---------------------------------------------------------------------------
  // Between the rollback and the deletion
  // ---------------------------------------------------------------------------

  /** The step stores a batch with an event at or past the block. */
  ghost predicate StoresPast(sys: System, op: Op, block: nat) {
    op.StoreOp? && sys.queue != [] && !sys.eventsStored && exists e :: e in sys.queue[0].events && e.block >= block
  }

  /**
   The pipeline since the frontiers were rolled back.  `renewed`: the waiting batches were released
   since then.  `early`: one released since then that has an event at or past the block was stored.
   */
  datatype Watched = Watched(t: Tracked, renewed: bool, early: bool)

  ghost function Watch(w: Watched, block: nat, op: Op): Watched {
    Watched(TrackedStep(w.t, op),
            w.renewed || (op.ReceiveOp? && w.t.sys.queue == []),
            w.early || (w.renewed && StoresPast(w.t.sys, op, block)))
  }

  ghost function WatchAll(w: Watched, block: nat, ops: seq<Op>): Watched {
    if ops == [] then w else Watch(WatchAll(w, block, ops[..|ops| - 1]), block, ops[|ops| - 1])
  }

  lemma {:induction false} WatchedIsRun(w: Watched, block: nat, ops: seq<Op>)
    ensures WatchAll(w, block, ops).t == TrackedRun(w.t, ops)
  {
    if ops != [] { WatchedIsRun(w, block, ops[..|ops| - 1]); }
  }

  ghost predicate LogBelow(t: Tracked, block: nat) {
    forall c, r, e | c in t.log && r in t.log[c] && e in r.events :: e.block < block
  }

  ghost predicate StoredBelow(t: Tracked, block: nat) {
    forall c, r, e | c in t.log && r in t.log[c] && e in r.events :: e.block < block || r in ToStore(t.sys)
  }

  /** The waiting batches end the log of their contract. */
  ghost predicate QueueInLog(t: Tracked) {
    t.sys.queue != [] ==>
      var c := t.sys.queue[0].task.contract; c in t.log && EndsWith(t.log[c], t.sys.queue)
  }

  ghost predicate EndsWith(log: seq<Result>, queue: seq<Result>) {
    |queue| <= |log| && log[|log| - |queue|..] == queue
  }

  lemma EndOfLog(log: seq<Result>, queue: seq<Result>, c: Contract, from: nat, end: nat)
    requires Chain(log, c, from, end) && queue != [] && EndsWith(log, queue)
    ensures queue[0] in log && queue[0].task.to < end && EndsWith(log, queue[1..])
    ensures forall x | x in queue :: x.task.contract == c
    ensures forall x | x in queue[1..] :: queue[0].task.to < x.task.from
  {
    LogRanges(log, c, from, end);
    TailIsIn(log, queue);
    RangesBehindFirst(log, queue);
  }

  lemma TailIsIn(log: seq<Result>, queue: seq<Result>)
    requires queue != [] && EndsWith(log, queue)
    ensures EndsWith(log, queue[1..]) && forall x | x in queue :: x in log
  {
    var k := |log| - |queue|;
    assert log[k + 1..] == queue[1..];
    assert forall x | x in log[k..] :: x in log;
  }

  lemma RangesBehindFirst(log: seq<Result>, queue: seq<Result>)
    requires queue != [] && EndsWith(log, queue)
    requires forall i, j | 0 <= i < j < |log| :: log[i].task.to < log[j].task.from
    ensures forall x | x in queue[1..] :: queue[0].task.to < x.task.from
  {
    var k := |log| - |queue|;
    forall x | x in queue[1..]
      ensures queue[0].task.to < x.task.from
    {
      var i :| 0 <= i < |queue| - 1 && queue[1..][i] == x;
      assert x == log[k..][1 + i] == log[k + 1 + i] && queue[0] == log[k..][0] == log[k];
    }
  }

  lemma LogRanges(log: seq<Result>, c: Contract, from: nat, end: nat)
    requires Chain(log, c, from, end)
    ensures forall i | 0 <= i < |log| :: log[i].task.contract == c && log[i].task.to < end
    ensures forall i, j | 0 <= i < j < |log| :: log[i].task.to < log[j].task.from
  {
    ChainBounds(log, c, from, end);
    ChainPartitions(log, c, from, end, 0);
  }

  /** Event `e` of range `r` was stored, and no batch that is still to be stored has its block. */
  ghost predicate Exposed(t: Tracked, r: Result, e: Event, block: nat) {
    var c := r.task.contract;
    && c in t.log && r in t.log[c] && e in r.events && e.block >= block
    && c in t.sys.sm.frontier && r.task.to < t.sys.sm.frontier[c]
    && forall x | x in ToStore(t.sys) && x.task.contract == c :: r.task.to < x.task.from
  }

  ghost predicate Follows(w: Watched, block: nat) {
    if w.early then exists r, e :: Exposed(w.t, r, e, block)
    else
      && NothingMissing(w.t)
      && if w.renewed then StoredBelow(w.t, block) && QueueInLog(w.t) else LogBelow(w.t, block)
  }

  lemma LogEventBelow(t: Tracked, place: nat -> (Contract, nat), c: Contract, r: Result, e: Event)
    requires LogReachesFrontier(t) && LogGenuine(t, place) && c in t.log && r in t.log[c] && e in r.events
    ensures e.block < t.sys.sm.frontier[c]
  {
    ChainBounds(t.log[c], c, t.base[c], t.sys.sm.frontier[c]);
    assert Genuine(r, place);
  }

  lemma RollbackOfLog(t: Tracked, block: nat, c: Contract)
    requires c in t.log && c in t.sys.sm.frontier
    ensures var t' := TrackedStep(t, Op.RollbackOp(block));
      && t'.sys.repo == t.sys.repo && ToStore(t'.sys) == ToStore(t.sys)
      && c in t'.log && t'.log[c] == if t.sys.sm.frontier[c] > block then [] else t.log[c]
  {
  }

  lemma RollbackLeaves(t: Tracked, block: nat, place: nat -> (Contract, nat), c: Contract, r: Result, e: Event)
    requires LogReachesFrontier(t) && LogGenuine(t, place) && c in t.log && e in r.events
    requires var t' := TrackedStep(t, Op.RollbackOp(block)); c in t'.log && r in t'.log[c]
    ensures r in t.log[c] && e.block < block
  {
    RollbackOfLog(t, block, c);
    LogEventBelow(t, place, c, r, e);
  }

  lemma RollbackStarts(t: Tracked, block: nat, place: nat -> (Contract, nat))
    requires LogReachesFrontier(t) && LogGenuine(t, place) && NothingMissing(t)
    ensures var t' := TrackedStep(t, Op.RollbackOp(block)); NothingMissing(t') && LogBelow(t', block)
  {
    RollbackMissesNothing(t, block, place);
    var t' := TrackedStep(t, Op.RollbackOp(block));
    forall c, r, e | c in t'.log && r in t'.log[c] && e in r.events
      ensures e.block < block
    {
      RollbackLeaves(t, block, place, c, r, e);
    }
  }

  lemma RollbackMissesNothing(t: Tracked, block: nat, place: nat -> (Contract, nat))
    requires LogReachesFrontier(t) && LogGenuine(t, place) && NothingMissing(t)
    ensures NothingMissing(TrackedStep(t, Op.RollbackOp(block)))
  {
    var t' := TrackedStep(t, Op.RollbackOp(block));
    forall c, r, e | c in t'.log && r in t'.log[c] && e in r.events
      ensures e.id in t'.sys.repo.stored || r in ToStore(t'.sys)
    {
      RollbackLeaves(t, block, place, c, r, e);
    }
  }

  lemma ReceiveKeepsBelow(t: Tracked, block: nat, r: Result)
    requires Ordered(t) && StoredBelow(t, block) && t.sys.queue == []
    ensures StoredBelow(TrackedStep(t, ReceiveOp(r)), block)
  {
    var t' := TrackedStep(t, ReceiveOp(r));
    forall c, x, e | c in t'.log && x in t'.log[c] && e in x.events
      ensures e.block < block || x in ToStore(t'.sys)
    {
      WaitsOrWasThere(t, r, c, x);
    }
  }

  lemma ReceiveRenews(t: Tracked, r: Result)
    requires Ordered(t) && t.sys.queue == []
    ensures QueueInLog(TrackedStep(t, ReceiveOp(r)))
  {
    ReadyIsReleased(t, r);
    var queue, c := Register(t.sys.sm, r).ready, r.task.contract;
    if queue != [] {
      ReadyIsOfContract(t.sys.sm, r);
      EndsWithAppended(t.log[c], queue);
    }
  }

  lemma EndsWithAppended(log: seq<Result>, queue: seq<Result>)
    ensures EndsWith(log + queue, queue)
  {
  }

  lemma ReadyIsOfContract(s: State, r: Result)
    requires WellFormed(s) && Register(s, r).ready != []
    ensures Register(s, r).ready[0].task.contract == r.task.contract
  {
    RegisterAdvancesFrontier(s, r);
  }

  lemma StoreStaysBelow(t: Tracked, block: nat)
    requires StoredBelow(t, block) && !StoresPast(t.sys, StoreOp, block)
    ensures StoredBelow(TrackedStep(t, StoreOp), block)
  {
    var sys := t.sys;
    assert sys.queue != [] ==> forall r | r in sys.queue :: r == sys.queue[0] || r in sys.queue[1..];
  }

  lemma StoreExposes(t: Tracked, block: nat)
    requires LogReachesFrontier(t) && QueueInLog(t) && StoresPast(t.sys, StoreOp, block)
    ensures exists r, e :: Exposed(TrackedStep(t, StoreOp), r, e, block)
  {
    var r := t.sys.queue[0];
    var e :| e in r.events && e.block >= block;
    var c := r.task.contract;
    EndOfLog(t.log[c], t.sys.queue, c, t.base[c], t.sys.sm.frontier[c]);
    assert Exposed(TrackedStep(t, StoreOp), r, e, block);
  }

  lemma PointKeepsQueueInLog(t: Tracked)
    requires LogReachesFrontier(t) && QueueInLog(t)
    ensures QueueInLog(TrackedStep(t, PointOp))
  {
    if t.sys.queue != [] && t.sys.eventsStored {
      var c := t.sys.queue[0].task.contract;
      EndOfLog(t.log[c], t.sys.queue, c, t.base[c], t.sys.sm.frontier[c]);
      assert |t.sys.queue| > 1 ==> t.sys.queue[1..][0] in t.sys.queue;
    }
  }

  /** What was exposed stays so while the commit loop goes on. */
  lemma StaysExposed(t: Tracked, r: Result, e: Event, block: nat, op: Op)
    requires Ordered(t) && Exposed(t, r, e, block) && (op.ReceiveOp? || op.StoreOp? || op.PointOp?)
    ensures Exposed(TrackedStep(t, op), r, e, block)
  {
    match op
    case ReceiveOp(x) => ReceiveStaysExposed(t, r, e, block, x);
    case StoreOp =>
      assert t.sys.queue != [] ==> forall x | x in t.sys.queue[1..] :: x in t.sys.queue;
    case PointOp => PointKeepsToStore(t.sys);
  }

  lemma ReceiveStaysExposed(t: Tracked, r: Result, e: Event, block: nat, x: Result)
    requires Ordered(t) && Exposed(t, r, e, block)
    ensures Exposed(TrackedStep(t, ReceiveOp(x)), r, e, block)
  {
    if t.sys.queue == [] {
      ReadyIsReleased(t, x);
      var s, c := t.sys.sm, x.task.contract;
      RegisterAdvancesFrontier(s, x);
      if c in s.frontier { ChainBounds(Register(s, x).ready, c, s.frontier[c], Register(s, x).state.frontier[c]); }
    }
  }

  lemma WatchFollows(w: Watched, block: nat, op: Op)
    requires Ordered(w.t) && Follows(w, block) && (op.ReceiveOp? || op.StoreOp? || op.PointOp?)
    ensures Follows(Watch(w, block, op), block)
  {
    if w.early {
      var r, e :| Exposed(w.t, r, e, block);
      StaysExposed(w.t, r, e, block, op);
    } else {
      StepMissesNothing(w.t, op);
      match op
      case ReceiveOp(r) => if w.t.sys.queue == [] {
          ReceiveKeepsBelow(w.t, block, r);
          ReceiveRenews(w.t, r);
        }
      case StoreOp =>
        if w.renewed && StoresPast(w.t.sys, op, block) {
          StoreExposes(w.t, block);
        } else if w.renewed {
          StoreStaysBelow(w.t, block);
        }
      case PointOp =>
        PointKeepsToStore(w.t.sys);
        if w.renewed { PointKeepsQueueInLog(w.t); }
    }
  }

  ghost predicate LoopOps(ops: seq<Op>) {
    forall op | op in ops :: op.ReceiveOp? || op.StoreOp? || op.PointOp?
  }

  lemma {:induction false} WatchAllFollows(w: Watched, block: nat, ops: seq<Op>)
    requires Ordered(w.t) && Follows(w, block) && LoopOps(ops)
    ensures Follows(WatchAll(w, block, ops), block)
  {
    if ops != [] {
      var before := ops[..|ops| - 1];
      WatchAllFollows(w, block, before);
      WatchedIsRun(w, block, before);
      RunKeepsOrdered(w.t, before);
      WatchFollows(WatchAll(w, block, before), block, ops[|ops| - 1]);
    }
  }

  // ---------------------------------------------------------------------------
  // From the deletion on
  // ---------------------------------------------------------------------------

  /** The event is gone, and nothing that is still to be stored or released has it. */
  ghost predicate Gone(t: Tracked, r: Result, e: Event, block: nat) {
    Exposed(t, r, e, block) && e.id !in t.sys.repo.stored
  }

  lemma DeletionTakesExposed(t: Tracked, r: Result, e: Event, block: nat, place: nat -> (Contract, nat))
    requires AllGenuine(t, place) && Exposed(t, r, e, block)
    ensures Gone(TrackedStep(t, DeleteOp(block)), r, e, block)
  {
    assert Genuine(r, place);
  }

  lemma DeletionMissesNothing(t: Tracked, block: nat, place: nat -> (Contract, nat))
    requires AllGenuine(t, place) && NothingMissing(t) && StoredBelow(t, block)
    ensures NothingMissing(TrackedStep(t, DeleteOp(block)))
  {
    var t' := TrackedStep(t, DeleteOp(block));
    forall c, r, e | c in t'.log && r in t'.log[c] && e in r.events
      ensures e.id in t'.sys.repo.stored || r in ToStore(t'.sys)
    {
      assert Genuine(r, place);
    }
  }

  lemma StaysGone(t: Tracked, r: Result, e: Event, block: nat, op: Op, place: nat -> (Contract, nat))
    requires Ordered(t) && AllGenuine(t, place) && Gone(t, r, e, block)
    requires op.ReceiveOp? || op.StoreOp? || op.PointOp?
    ensures Gone(TrackedStep(t, op), r, e, block)
  {
    StaysExposed(t, r, e, block, op);
    if op.StoreOp? && t.sys.queue != [] && !t.sys.eventsStored {
      var first := t.sys.queue[0];
      assert first in ToStore(t.sys);
      OtherRangeLacksEvent(r, e, first, place);
      InsertedEvents(t.sys.repo.stored, first.events);
    }
  }

  lemma OtherRangeLacksEvent(r: Result, e: Event, other: Result, place: nat -> (Contract, nat))
    requires Genuine(r, place) && Genuine(other, place) && e in r.events
    requires other.task.contract == r.task.contract ==> r.task.to < other.task.from
    ensures forall x | x in other.events :: x.id != e.id
  {
    forall x | x in other.events
      ensures x.id != e.id
    {
      assert place(x.id) == (x.contract, x.block) && place(e.id) == (e.contract, e.block);
    }
  }

  lemma {:induction false} RunStaysGone(t: Tracked, r: Result, e: Event, block: nat, ops: seq<Op>,
                                        place: nat -> (Contract, nat))
    requires Ordered(t) && AllGenuine(t, place) && Gone(t, r, e, block) && LoopOps(ops) && GenuineOps(ops, place)
    ensures Gone(TrackedRun(t, ops), r, e, block)
  {
    if ops != [] {
      var before, op := ops[..|ops| - 1], ops[|ops| - 1];
      assert ops == before + [op];
      RunStaysGone(t, r, e, block, before, place);
      RunKeepsGenuine(t, before, place);
      StaysGone(TrackedRun(t, before), r, e, block, op, place);
    }
  }

  lemma {:induction false} RunMissesNothing(t: Tracked, ops: seq<Op>)
    requires Ordered(t) && NothingMissing(t) && LoopOps(ops)
    ensures NothingMissing(TrackedRun(t, ops))
  {
    if ops != [] {
      RunMissesNothing(t, ops[..|ops| - 1]);
      RunKeepsOrdered(t, ops[..|ops| - 1]);
      StepMissesNothing(TrackedRun(t, ops[..|ops| - 1]), ops[|ops| - 1]);
    }
  }

  // ---------------------------------------------------------------------------
  // The exact condition
  // ---------------------------------------------------------------------------

  lemma GoneIsMissing(t: Tracked, r: Result, e: Event, block: nat)
    requires Gone(t, r, e, block)
    ensures !NothingMissing(TrackedStep(t, ResetOp(block)))
  {
    assert r !in ToStore(t.sys);
  }

  lemma EarlyIsMissing(t: Tracked, r: Result, e: Event, block: nat, d: seq<Op>, place: nat -> (Contract, nat))
    requires Ordered(t) && AllGenuine(t, place) && Exposed(t, r, e, block) && LoopOps(d) && GenuineOps(d, place)
    ensures !NothingMissing(TrackedStep(TrackedRun(TrackedStep(t, DeleteOp(block)), d), ResetOp(block)))
  {
    var t' := TrackedStep(t, DeleteOp(block));
    StepKeepsOrdered(t, DeleteOp(block));
    StepKeepsGenuine(t, DeleteOp(block), place);
    DeletionTakesExposed(t, r, e, block, place);
    RunStaysGone(t', r, e, block, d, place);
    GoneIsMissing(TrackedRun(t', d), r, e, block);
  }

  lemma BelowMissesNothing(t: Tracked, block: nat, d: seq<Op>, place: nat -> (Contract, nat))
    requires Ordered(t) && AllGenuine(t, place) && NothingMissing(t) && StoredBelow(t, block) && LoopOps(d)
    ensures NothingMissing(TrackedStep(TrackedRun(TrackedStep(t, DeleteOp(block)), d), ResetOp(block)))
  {
    StepKeepsOrdered(t, DeleteOp(block));
    DeletionMissesNothing(t, block, place);
    RunMissesNothing(TrackedStep(t, DeleteOp(block)), d);
    ResetMissesNothing(TrackedRun(TrackedStep(t, DeleteOp(block)), d), block);
  }

  lemma ResetMissesNothing(t: Tracked, block: nat)
    requires NothingMissing(t)
    ensures NothingMissing(TrackedStep(t, ResetOp(block)))
  {
  }

  /**
   A reorganisation during which the commit loop goes on, `a` before the deletion and `d` after it, in a
   run that missed nothing so far.  Afterwards every event of every range released since its contract's
   last rollback is stored or still to be stored, if and only if no batch released since the rollback
   that has an event at or past the block was stored before the deletion.
   */
  lemma EventsMissingExactly(rows: map<Contract, int>, before: seq<Op>, block: nat, a: seq<Op>, d: seq<Op>,
                             place: nat -> (Contract, nat))
    requires forall x | x in rows :: rows[x] >= -1
    requires GenuineOps(before, place) && GenuineOps(a, place) && GenuineOps(d, place)
    requires NothingMissing(TrackedRun(Initial(rows), before)) && LoopOps(a) && LoopOps(d)
    ensures var t := TrackedRun(Initial(rows), before + [Op.RollbackOp(block)]);
      NothingMissing(TrackedRun(t, a + [DeleteOp(block)] + d + [ResetOp(block)])) <==>
      !WatchAll(Watched(t, false, false), block, a).early
  {
    var t0 := TrackedRun(Initial(rows), before);
    var t1 := TrackedStep(t0, Op.RollbackOp(block));
    RunKeepsGenuine(Initial(rows), before, place);
    TrackedRunAppend(Initial(rows), before, Op.RollbackOp(block));
    StepKeepsOrdered(t0, Op.RollbackOp(block));
    StepKeepsGenuine(t0, Op.RollbackOp(block), place);
    RollbackStarts(t0, block, place);
    ExactlyFromRollback(t1, block, a, d, place);
  }

  lemma ExactlyFromRollback(t: Tracked, block: nat, a: seq<Op>, d: seq<Op>, place: nat -> (Contract, nat))
    requires Ordered(t) && AllGenuine(t, place) && NothingMissing(t) && LogBelow(t, block)
    requires GenuineOps(a, place) && GenuineOps(d, place) && LoopOps(a) && LoopOps(d)
    ensures NothingMissing(TrackedRun(t, a + [DeleteOp(block)] + d + [ResetOp(block)])) <==>
        !WatchAll(Watched(t, false, false), block, a).early
  {
    var w := WatchAll(Watched(t, false, false), block, a);
    WatchAllFollows(Watched(t, false, false), block, a);
    WatchedIsRun(Watched(t, false, false), block, a);
    RunKeepsGenuine(t, a, place);
    TrackedRunAppend(t, a, DeleteOp(block));
    TrackedRunOn(t, a + [DeleteOp(block)], d);
    TrackedRunAppend(t, a + [DeleteOp(block)] + d, ResetOp(block));
    if w.early {
      var r, e :| Exposed(w.t, r, e, block);
      EarlyIsMissing(w.t, r, e, block, d, place);
    } else {
      BelowMissesNothing(w.t, block, d, place);
    }
  }

  /** Calm runs miss nothing. */
  lemma CalmRunMissesNothing(rows: map<Contract, int>, ops: seq<Op>, place: nat -> (Contract, nat))
    requires forall x | x in rows :: rows[x] >= -1
    requires GenuineOps(ops, place) && Calm(Initial(rows).sys, ops)
    ensures NothingMissing(TrackedRun(Initial(rows), ops))
  {
    var owner := (id: nat) => place(id).0;
    InitialIsComplete(rows, owner);
    CalmRunKeepsComplete(Initial(rows), ops, owner);
    CompleteMissesNothing(TrackedRun(Initial(rows), ops), owner);
  }

  lemma CompleteMissesNothing(t: Tracked, owner: nat -> Contract)
    requires Complete(t, owner)
    ensures NothingMissing(t)
  {
    var queue := t.sys.queue;
    assert forall r | r in queue :: r == queue[0] || r in queue[1..];
  }

  // ---------------------------------------------------------------------------
  // Events lost on the way
  // ---------------------------------------------------------------------------

  /**
   Pointers that agree do not mean that nothing is missing: here a range is released and its event
   stored between the rollback and the deletion, which takes the event away again.  The pointer moves
   past the range, nothing is left to write, and the event is not stored.
   */
  lemma EventLostInReorg(c: Contract) returns (r: Result, lost: Event)
    ensures var t := TrackedRun(Initial(map[c := -1]),
          [Op.RollbackOp(2)] + [ReceiveOp(r)] + [StoreOp] + [DeleteOp(2)] + [ResetOp(2)] + [PointOp]);
      && PointersAgree(t.sys) && t.sys.queue == []
      && c in t.log && t.log[c] == [r] && lost in r.events && lost.id !in t.sys.repo.stored
  {
    lost := Event(c, 3, 7, "");
    r := Result(Task(c, 0, 4), [lost]);
    LossAsRun(c, r, lost);
    AllWritten(c, r);
  }

  lemma AllWritten(c: Contract, r: Result)
    ensures PointersAgree(At(c, 5, 4, map[], [], false, [r]).sys)
  {
  }

  lemma LossAsRun(c: Contract, r: Result, e: Event)
    requires r.task == Task(c, 0, 4) && r.events == [e] && e.block == 3
    ensures TrackedRun(Initial(map[c := -1]),
        [Op.RollbackOp(2)] + [ReceiveOp(r)] + [StoreOp] + [DeleteOp(2)] + [ResetOp(2)] + [PointOp])
      == At(c, 5, 4, map[], [], false, [r])
  {
    RunSix(Initial(map[c := -1]), Op.RollbackOp(2), ReceiveOp(r), StoreOp, DeleteOp(2), ResetOp(2), PointOp);
    BeginsUnharmed(c);
    ReleasesRange(c, r);
    StoresAndDeletes(c, r, e);
    LeavesPointerAlone(c, r);
    MovesPointer(c, r);
  }

  /** The states of that run: `f` is the frontier, `last` the pointer. */
  ghost function At(c: Contract, f: nat, last: int, stored: map<nat, Event>, queue: seq<Result>, done: bool,
                    log: seq<Result>): Tracked {
    Tracked(System(State(map[c := f], map[]), Repo(map[c := last], stored), queue, done), map[c := 0], map[c := log])
  }

  lemma BeginsUnharmed(c: Contract)
    ensures TrackedStep(Initial(map[c := -1]), Op.RollbackOp(2)) == At(c, 0, -1, map[], [], false, [])
  {
  }

  lemma ReleasesRange(c: Contract, r: Result)
    requires r.task == Task(c, 0, 4)
    ensures TrackedStep(At(c, 0, -1, map[], [], false, []), ReceiveOp(r)) == At(c, 5, -1, map[], [r], false, [r])
  {
    var p: Pending := map[(c, 0) := r];
    DrainUnfolds(c, 0, p);
    assert p - {(c, 0)} == map[];
    assert Drain(c, 5, map[]) == Drained([], map[], 5);
    var s: State := State(map[c := 0], map[]);
    assert Register(s, r).ready == [r] && Register(s, r).state == State(map[c := 5], map[]);
    var log: seq<Result> := [];
    assert log + [r] == [r];
  }

  lemma StoresAndDeletes(c: Contract, r: Result, e: Event)
    requires r.task == Task(c, 0, 4) && r.events == [e] && e.block == 3
    ensures var t := At(c, 5, -1, map[], [r], false, [r]);
      TrackedStep(TrackedStep(t, StoreOp), DeleteOp(2)) == At(c, 5, -1, map[], [r], true, [r])
  {
    assert r.events[..0] == [];
    assert InsertEvents(map[], r.events) == map[e.id := e];
  }

  lemma LeavesPointerAlone(c: Contract, r: Result)
    ensures var t := At(c, 5, -1, map[], [r], true, [r]); TrackedStep(t, ResetOp(2)) == t
  {
  }

  lemma MovesPointer(c: Contract, r: Result)
    requires r.task == Task(c, 0, 4)
    ensures TrackedStep(At(c, 5, -1, map[], [r], true, [r]), PointOp) == At(c, 5, 4, map[], [], false, [r])
  {
  }

  lemma TrackedRunAppend(t: Tracked, ops: seq<Op>, op: Op)
    ensures TrackedRun(t, ops + [op]) == TrackedStep(TrackedRun(t, ops), op)
  {
    assert (ops + [op])[..|ops|] == ops;
  }

  lemma RunSix(t: Tracked, a: Op, b: Op, c: Op, d: Op, e: Op, f: Op)
    ensures TrackedRun(t, [a] + [b] + [c] + [d] + [e] + [f])
      == TrackedStep(TrackedStep(TrackedStep(TrackedStep(TrackedStep(TrackedStep(t, a), b), c), d), e), f)
  {
    TrackedRunAppend(t, [], a);
    assert [] + [a] == [a];
    TrackedRunAppend(t, [a], b);
    TrackedRunAppend(t, [a] + [b], c);
    TrackedRunAppend(t, [a] + [b] + [c], d);
    TrackedRunAppend(t, [a] + [b] + [c] + [d], e);
    TrackedRunAppend(t, [a] + [b] + [c] + [d] + [e], f);
  }
}
