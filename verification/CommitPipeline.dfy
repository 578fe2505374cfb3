/**
 The commit loop and the reorganisation handler of the parallel indexer
 (stellar-lend/indexing_system/src/parallel_indexer.rs) over an abstract repository
 (stellar-lend/indexing_system/src/repository.rs).

 The commit loop runs in a task of its own and awaits the repository: it hands a result to the state
 manager, then stores the events and moves the pointer of one released batch after the other.  Each
 of these is a step, and a reorganisation may come between any two of them.
 */
module CommitPipeline {
  import opened BlockIndexer

  datatype Repo = Repo(last: map<Contract, int>, stored: map<nat, Event>)

  /** `queue` holds the released batches not written yet; `eventsStored` says that the first one's events are. */
  datatype System = System(sm: State, repo: Repo, queue: seq<Result>, eventsStored: bool)

  /** INSERT ... ON CONFLICT DO NOTHING. */
  function InsertEvents(stored: map<nat, Event>, events: seq<Event>): map<nat, Event> {
    if events == [] then stored
    else
      var before := InsertEvents(stored, events[..|events| - 1]);
      var e := events[|events| - 1];
      if e.id in before then before else before[e.id := e]
  }

  /** UPDATE ... WHERE contract_address = c: no effect without a row. */
  function Point(last: map<Contract, int>, c: Contract, block: int): map<Contract, int> {
    if c in last then last[c := block] else last
  }

  /** The loop takes up the next result only when the batches of the one before are written. */
  function Receive(sys: System, r: Result): System {
    if sys.queue != [] then sys
    else
      var out := Register(sys.sm, r);
      System(out.state, sys.repo, out.ready, false)
  }

  function StoreNext(sys: System): System {
    if sys.queue == [] || sys.eventsStored then sys
    else
      sys.(repo := Repo(sys.repo.last, InsertEvents(sys.repo.stored, sys.queue[0].events)), eventsStored := true)
  }

  function PointNext(sys: System): System {
    if sys.queue == [] || !sys.eventsStored then sys
    else
      var task := sys.queue[0].task;
      System(sys.sm, Repo(Point(sys.repo.last, task.contract, task.to), sys.repo.stored), sys.queue[1..], false)
  }

  /** A write of the first batch failed: the error is logged, and the loop goes on with the next batch. */
  function FailNext(sys: System): System {
    if sys.queue == [] then sys else System(sys.sm, sys.repo, sys.queue[1..], false)
  }

  /** All batches of the queue written. */
  function Flushed(sys: System): System
    decreases |sys.queue|
  {
    if sys.queue == [] then sys else Flushed(PointNext(StoreNext(sys)))
  }

  function SaturatingPred(n: nat): nat { if n == 0 then 0 else n - 1 }

  function RepoReorg(repo: Repo, block: nat): Repo {
    Repo(map c | c in repo.last :: if repo.last[c] >= block then SaturatingPred(block) else repo.last[c],
         map id | id in repo.stored && repo.stored[id].block < block :: repo.stored[id])
  }

  /** handle_reorg that nothing interrupts. */
  function Reorg(sys: System, block: nat): System {
    sys.(sm := Rollback(sys.sm, block), repo := RepoReorg(sys.repo, block))
  }

  // handle_reorg between its awaits.

  function RollbackFrontiers(sys: System, block: nat): System {
    sys.(sm := Rollback(sys.sm, block))
  }

  function DeleteEvents(sys: System, block: nat): System {
    sys.(repo := Repo(sys.repo.last, RepoReorg(sys.repo, block).stored))
  }

  function ResetPointers(sys: System, block: nat): System {
    sys.(repo := Repo(RepoReorg(sys.repo, block).last, sys.repo.stored))
  }

  class EventRepository {
    var last: map<Contract, int>
    var stored: map<nat, Event>

    ghost function Model(): Repo
      reads this
    {
      Repo(last, stored)
    }

    constructor (rows: map<Contract, int>)
      ensures Model() == Repo(rows, map[])
    {
      last, stored := rows, map[];
    }

    method CreateEventsBatch(events: seq<Event>)
      modifies this
      ensures Model() == Repo(old(last), InsertEvents(old(stored), events))
    {
      for i := 0 to |events|
        invariant last == old(last) && stored == InsertEvents(old(stored), events[..i])
      {
        assert events[..i + 1][..i] == events[..i];
        if events[i].id !in stored {
          stored := stored[events[i].id := events[i]];
        }
      }
      assert events[..|events|] == events;
    }

    method UpdateMetadata(contract: Contract, block: int)
      modifies this
      ensures Model() == Repo(Point(old(last), contract, block), old(stored))
    {
      if contract in last {
        last := last[contract := block];
      }
    }

    method DeleteEventsFromBlock(block: nat)
      modifies this
      ensures last == old(last)
      ensures stored == map id | id in old(stored) && old(stored)[id].block < block :: old(stored)[id]
    {
      stored := map id | id in stored && stored[id].block < block :: stored[id];
    }
  }

  class ParallelIndexer {
    const stateManager: StateManager
    const repository: EventRepository
    var queue: seq<Result>
    var eventsStored: bool

    ghost function Model(): System
      reads this, stateManager, repository
    {
      System(stateManager.Model(), repository.Model(), queue, eventsStored)
    }

    constructor (stateManager: StateManager, repository: EventRepository)
      ensures this.stateManager == stateManager && this.repository == repository
      ensures queue == [] && !eventsStored
    {
      this.stateManager, this.repository := stateManager, repository;
      queue, eventsStored := [], false;
    }

    /** The commit loop up to the first await of the repository. */
    method ReceiveResult(result: Result)
      requires queue == []
      modifies this, stateManager
      ensures Model() == Receive(old(Model()), result)
    {
      queue := stateManager.RegisterResult(result);
      eventsStored := false;
    }

    method StoreBatch()
      requires queue != [] && !eventsStored
      modifies this, repository
      ensures Model() == StoreNext(old(Model()))
    {
      if queue[0].events != [] {
        repository.CreateEventsBatch(queue[0].events);
      }
      eventsStored := true;
    }

    method PointBatch()
      requires queue != [] && eventsStored
      modifies this, repository
      ensures Model() == PointNext(old(Model()))
    {
      repository.UpdateMetadata(queue[0].task.contract, queue[0].task.to);
      queue, eventsStored := queue[1..], false;
    }

    method FailBatch()
      requires queue != []
      modifies this
      ensures Model() == FailNext(old(Model()))
    {
      queue, eventsStored := queue[1..], false;
    }

    /** One iteration of the commit loop that nothing interrupts. */
    method CommitResult(result: Result)
      requires queue == []
      modifies this, stateManager, repository
      ensures Model() == Flushed(Receive(old(Model()), result))
    {
      ReceiveResult(result);
      while queue != []
        invariant !eventsStored
        invariant Flushed(Model()) == Flushed(Receive(old(Model()), result))
        decreases |queue|
      {
        StoreBatch();
        PointBatch();
      }
    }

    method ResetMetadata(block: nat)
      modifies repository
      ensures Model() == ResetPointers(old(Model()), block)
    {
      ghost var last0 := repository.last;
      var todo := repository.last.Keys;
      while todo != {}
        invariant repository.stored == old(repository.stored)
        invariant repository.last.Keys == last0.Keys && todo <= last0.Keys
        invariant forall c | c in last0 ::
            repository.last[c] == (if c !in todo && last0[c] >= block then SaturatingPred(block) else last0[c])
        decreases todo
      {
        var c :| c in todo;
        if repository.last[c] >= block {
          repository.UpdateMetadata(c, SaturatingPred(block));
        }
        todo := todo - {c};
      }
    }

    method HandleReorg(block: nat)
      modifies stateManager, repository
      ensures Model() == Reorg(old(Model()), block)
    {
      stateManager.RollbackTo(block);
      repository.DeleteEventsFromBlock(block);
      ResetMetadata(block);
    }
  }

  // ---------------------------------------------------------------------------
  // Runs
  // ---------------------------------------------------------------------------

  /** `ReorgOp` is handle_reorg at one stroke, the last three are its parts. */
  datatype Op =
    | ReceiveOp(result: Result) | StoreOp | PointOp | FailOp
    | ReorgOp(block: nat) | RollbackOp(block: nat) | DeleteOp(block: nat) | ResetOp(block: nat)

  function Step(sys: System, op: Op): System {
    match op
    case ReceiveOp(r) => Receive(sys, r)
    case StoreOp => StoreNext(sys)
    case PointOp => PointNext(sys)
    case FailOp => FailNext(sys)
    case ReorgOp(b) => Reorg(sys, b)
    case RollbackOp(b) => RollbackFrontiers(sys, b)
    case DeleteOp(b) => DeleteEvents(sys, b)
    case ResetOp(b) => ResetPointers(sys, b)
  }

  predicate PullsBack(op: Op) { op.ReorgOp? || op.RollbackOp? }

  function Run(sys: System, ops: seq<Op>): System {
    if ops == [] then sys else Step(Run(sys, ops[..|ops| - 1]), ops[|ops| - 1])
  }

  /**
   A system with, per contract, the block its frontier was last pulled back to (`base`, at first
   the initial frontier) and the results released since then (`log`).
   */
  datatype Tracked = Tracked(sys: System, base: map<Contract, nat>, log: map<Contract, seq<Result>>)

  ghost function TrackedStep(t: Tracked, op: Op): Tracked {
    var sys' := Step(t.sys, op);
    if op.ReceiveOp? then
      var c := op.result.task.contract;
      Tracked(sys', t.base,
              if t.sys.queue == [] && c in t.log
              then t.log[c := t.log[c] + Register(t.sys.sm, op.result).ready] else t.log)
    else if PullsBack(op) then
      var f, b := t.sys.sm.frontier, op.block;
      Tracked(sys',
              map c | c in t.base :: if c in f && f[c] > b then b else t.base[c],
              map c | c in t.log :: if c in f && f[c] > b then [] else t.log[c])
    else t.(sys := sys')
  }

  ghost function TrackedRun(t: Tracked, ops: seq<Op>): Tracked {
    if ops == [] then t else TrackedStep(TrackedRun(t, ops[..|ops| - 1]), ops[|ops| - 1])
  }

  lemma {:induction false} TrackedRunIsRun(t: Tracked, ops: seq<Op>)
    ensures TrackedRun(t, ops).sys == Run(t.sys, ops)
  {
    if ops != [] { TrackedRunIsRun(t, ops[..|ops| - 1]); }
  }

  /** The pipeline's start: frontiers are loaded as last_indexed_block + 1. */
  ghost function Initial(rows: map<Contract, int>): Tracked
    requires forall c | c in rows :: rows[c] >= -1
  {
    Tracked(System(State(map c | c in rows :: rows[c] + 1, map[]), Repo(rows, map[]), [], false),
            map c | c in rows :: rows[c] + 1, map c | c in rows :: [])
  }

  // ---------------------------------------------------------------------------
  // What every run keeps
  // ---------------------------------------------------------------------------

  ghost predicate LogReachesFrontier(t: Tracked) {
    && t.base.Keys == t.sys.sm.frontier.Keys && t.log.Keys == t.sys.sm.frontier.Keys
    && forall c | c in t.log :: Chain(t.log[c], c, t.base[c], t.sys.sm.frontier[c])
  }

  ghost predicate Ordered(t: Tracked) {
    WellFormed(t.sys.sm) && LogReachesFrontier(t)
  }

  lemma StepKeepsOrdered(t: Tracked, op: Op)
    requires Ordered(t)
    ensures Ordered(TrackedStep(t, op))
  {
    match op
    case ReceiveOp(r) =>
      var s, c := t.sys.sm, r.task.contract;
      RegisterAdvancesFrontier(s, r);
      if t.sys.queue == [] && c in s.frontier {
        var f, f' := s.frontier[c], Register(s, r).state.frontier[c];
        ChainAppend(t.log[c], Register(s, r).ready, c, t.base[c], f, f');
      }
    case ReorgOp(b) =>
      RollbackKeepsWellFormed(t.sys.sm, b);
      RollbackKeepsLog(t, op);
    case RollbackOp(b) =>
      RollbackKeepsWellFormed(t.sys.sm, b);
      RollbackKeepsLog(t, op);
    case _ =>
  }

  lemma RollbackKeepsWellFormed(s: State, block: nat)
    requires WellFormed(s)
    ensures WellFormed(Rollback(s, block))
  {
  }

  lemma RollbackKeepsLog(t: Tracked, op: Op)
    requires LogReachesFrontier(t) && PullsBack(op)
    ensures LogReachesFrontier(TrackedStep(t, op))
  {
  }

  lemma {:induction false} RunKeepsOrdered(t: Tracked, ops: seq<Op>)
    requires Ordered(t)
    ensures Ordered(TrackedRun(t, ops))
    ensures TrackedRun(t, ops).sys.sm.frontier.Keys == t.sys.sm.frontier.Keys
  {
    if ops != [] {
      var before := TrackedRun(t, ops[..|ops| - 1]);
      RunKeepsOrdered(t, ops[..|ops| - 1]);
      StepKeepsOrdered(before, ops[|ops| - 1]);
      if ops[|ops| - 1].ReceiveOp? { RegisterAdvancesFrontier(before.sys.sm, ops[|ops| - 1].result); }
    }
  }

  /**
   In every run from a loaded state, after every step and for every contract, however the parts of
   reorganisations fall between the steps of the commit loop and whichever writes fail: the ranges
   released since its last rollback are contiguous, ascending and disjoint, together they are exactly
   the blocks from the rollback point up to the frontier, and no pending result starts at the frontier.
   */
  lemma EveryRunReleasesInOrder(rows: map<Contract, int>, ops: seq<Op>, c: Contract, b: nat)
    requires forall x | x in rows :: rows[x] >= -1
    requires c in rows
    ensures var t := TrackedRun(Initial(rows), ops);
      && t.sys == Run(Initial(rows).sys, ops)
      && c in t.sys.sm.frontier && c in t.log && c in t.base
      && var f := t.sys.sm.frontier[c]; var log := t.log[c];
      && (c, f) !in t.sys.sm.pending
      && (forall i, j | 0 <= i < j < |log| :: log[i].task.to < log[j].task.from)
      && (forall i | 0 <= i < |log| :: log[i].task.contract == c)
      && (t.base[c] <= b < f <==> exists i :: 0 <= i < |log| && Covers(log[i], b))
  {
    TrackedRunIsRun(Initial(rows), ops);
    RunKeepsOrdered(Initial(rows), ops);
    var t := TrackedRun(Initial(rows), ops);
    ChainPartitions(t.log[c], c, t.base[c], t.sys.sm.frontier[c], b);
    ChainBounds(t.log[c], c, t.base[c], t.sys.sm.frontier[c]);
  }

  /** The frontier of a contract falls in a step if and only if the step is a reorganisation below it. */
  lemma FrontierFallsOnlyInReorg(t: Tracked, op: Op, c: Contract)
    requires Ordered(t) && c in t.sys.sm.frontier
    ensures var f := t.sys.sm.frontier[c]; var f' := TrackedStep(t, op).sys.sm.frontier;
      c in f' && (f'[c] < f <==> PullsBack(op) && op.block < f)
  {
    if op.ReceiveOp? {
      var s, r := t.sys.sm, op.result;
      RegisterAdvancesFrontier(s, r);
      var rc := r.task.contract;
      if rc in s.frontier {
        ChainBounds(Register(s, r).ready, rc, s.frontier[rc], Register(s, r).state.frontier[rc]);
      }
    }
  }

  // ---------------------------------------------------------------------------
  // When pointers and stored events follow the frontier
  // ---------------------------------------------------------------------------

  /** A worker's events belong to the contract and the blocks of its task. */
  ghost predicate Honest(r: Result) {
    forall e | e in r.events :: e.contract == r.task.contract && r.task.from <= e.block <= r.task.to
  }

  ghost predicate AllHonest(sys: System) {
    && (forall k | k in sys.sm.pending :: Honest(sys.sm.pending[k]))
    && (forall r | r in sys.queue :: Honest(r))
  }

  /** The batches of `c` that are still to be written. */
  function Waiting(sys: System, c: Contract): seq<Result> {
    if sys.queue != [] && sys.queue[0].task.contract == c then sys.queue else []
  }

  /** Every pointer is the block before the frontier, once the waiting batches are written. */
  ghost predicate PointersAgree(sys: System) {
    && sys.sm.frontier.Keys == sys.repo.last.Keys
    && (forall c | c in sys.repo.last ::
          sys.repo.last[c] >= -1 && Chain(Waiting(sys, c), c, sys.repo.last[c] + 1, sys.sm.frontier[c]))
    && (sys.queue != [] ==> sys.queue[0].task.contract in sys.sm.frontier)
    && (sys.eventsStored ==> sys.queue != [])
  }

  ghost predicate StoreBehindFrontier(sys: System) {
    forall id | id in sys.repo.stored ::
      var e := sys.repo.stored[id];
      e.contract in sys.sm.frontier && e.block < sys.sm.frontier[e.contract]
  }

  ghost predicate Settled(sys: System) {
    WellFormed(sys.sm) && AllHonest(sys) && PointersAgree(sys) && StoreBehindFrontier(sys)
  }

  lemma ReceiveKeepsSettled(sys: System, r: Result)
    requires Settled(sys) && Honest(r)
    ensures Settled(Receive(sys, r))
  {
    if sys.queue == [] {
      var s, c := sys.sm, r.task.contract;
      RegisterAdvancesFrontier(s, r);
      HonestReady(s, r);
      var out := Register(s, r);
      if c in s.frontier {
        ChainBounds(out.ready, c, s.frontier[c], out.state.frontier[c]);
      }
    }
  }

  lemma HonestReady(s: State, r: Result)
    requires WellFormed(s) && Honest(r) && forall k | k in s.pending :: Honest(s.pending[k])
    ensures forall x | x in Register(s, r).ready :: Honest(x)
  {
    RegisterAdvancesFrontier(s, r);
    forall x | x in Register(s, r).ready
      ensures Honest(x)
    {
      if x != r { var k :| k in s.pending && s.pending[k] == x; }
    }
  }

  lemma {:induction false} InsertedEvents(stored: map<nat, Event>, events: seq<Event>)
    ensures var after := InsertEvents(stored, events);
      && (forall id | id in after :: after[id] in events || (id in stored && after[id] == stored[id]))
      && (forall id | id in after && id !in stored :: after[id].id == id)
      && (forall id | id in stored :: id in after && after[id] == stored[id])
      && (forall e | e in events :: e.id in after)
  {
    if events != [] {
      InsertedEvents(stored, events[..|events| - 1]);
      assert events == events[..|events| - 1] + [events[|events| - 1]];
    }
  }

  lemma StoreKeepsSettled(sys: System)
    requires Settled(sys)
    ensures Settled(StoreNext(sys))
  {
    if sys.queue != [] && !sys.eventsStored {
      var r, c := sys.queue[0], sys.queue[0].task.contract;
      ChainBounds(sys.queue, c, sys.repo.last[c] + 1, sys.sm.frontier[c]);
      assert Honest(r) && r.task.to < sys.sm.frontier[c];
      InsertKeepsBehind(sys, r);
    }
  }

  lemma InsertKeepsBehind(sys: System, r: Result)
    requires StoreBehindFrontier(sys) && Honest(r)
    requires r.task.contract in sys.sm.frontier && r.task.to < sys.sm.frontier[r.task.contract]
    ensures StoreBehindFrontier(sys.(repo := Repo(sys.repo.last, InsertEvents(sys.repo.stored, r.events)),
        eventsStored := true))
  {
    var after := InsertEvents(sys.repo.stored, r.events);
    InsertedEvents(sys.repo.stored, r.events);
    forall id | id in after
      ensures after[id].contract in sys.sm.frontier && after[id].block < sys.sm.frontier[after[id].contract]
    {
      if !(id in sys.repo.stored && after[id] == sys.repo.stored[id]) { assert after[id] in r.events; }
    }
  }

  lemma PointKeepsSettled(sys: System)
    requires Settled(sys)
    ensures Settled(PointNext(sys))
  {
    PointKeepsPointers(sys);
    assert sys.queue != [] ==> forall r | r in sys.queue[1..] :: r in sys.queue;
  }

  lemma PointKeepsPointers(sys: System)
    requires PointersAgree(sys)
    ensures PointersAgree(PointNext(sys))
  {
    if sys.queue != [] && sys.eventsStored {
      var c := sys.queue[0].task.contract;
      ChainBounds(sys.queue, c, sys.repo.last[c] + 1, sys.sm.frontier[c]);
      if |sys.queue| > 1 { assert sys.queue[1..][0] == sys.queue[1]; }
    }
  }

  /** No batch is waiting that reaches the block. */
  ghost predicate QueueBelow(sys: System, block: nat) {
    forall r | r in sys.queue :: r.task.to < block
  }

  lemma ReorgKeepsSettled(sys: System, block: nat)
    requires Settled(sys) && QueueBelow(sys, block) && block >= 1
    ensures Settled(Reorg(sys, block))
  {
    var sys' := Reorg(sys, block);
    RollbackKeepsWellFormed(sys.sm, block);
    forall c | c in sys'.repo.last
      ensures sys'.repo.last[c] >= -1 && Chain(Waiting(sys', c), c, sys'.repo.last[c] + 1, sys'.sm.frontier[c])
    {
      var w, from, f := Waiting(sys, c), sys.repo.last[c] + 1, sys.sm.frontier[c];
      assert Waiting(sys', c) == w;
      CutShortChain(w, c, from, f, block);
    }
  }

  /** Pointer and frontier cut back together, when no batch in between reaches the block. */
  lemma CutShortChain(rs: seq<Result>, c: Contract, from: nat, end: nat, block: nat)
    requires Chain(rs, c, from, end) && forall r | r in rs :: r.task.to < block
    ensures Chain(rs, c, if from > block then block else from, if end > block then block else end)
  {
    ChainBounds(rs, c, from, end);
    if rs != [] {
      ChainEnds(rs, c, from, end);
      assert rs[|rs| - 1] in rs;
    }
  }

  /** A non-empty chain ends one block before its end. */
  lemma {:induction false} ChainEnds(rs: seq<Result>, c: Contract, from: nat, end: nat)
    requires rs != [] && Chain(rs, c, from, end)
    ensures rs[|rs| - 1].task.to + 1 == end
  {
    if |rs| > 1 {
      ChainEnds(rs[1..], c, rs[0].task.to + 1, end);
      assert rs[1..][|rs| - 2] == rs[|rs| - 1];
    }
  }

  /**
   Exactly which reorganisations leave the pointers right.  From a settled state, the pointers (after
   the waiting batches are written) agree with the frontiers after a reorganisation if and only if no
   waiting batch reaches its block, and the block is positive or nothing had been indexed: at block 0
   the pointers are reset to 0 instead of -1.
   */
  lemma ReorgSettlesExactly(sys: System, block: nat)
    requires Settled(sys)
    ensures PointersAgree(Reorg(sys, block)) <==>
        QueueBelow(sys, block) && (block >= 1 || forall c | c in sys.sm.frontier :: sys.sm.frontier[c] == 0)
  {
    if !QueueBelow(sys, block) {
      WaitingBatchDisagrees(sys, block);
    } else if block >= 1 {
      ReorgKeepsSettled(sys, block);
    } else {
      BlockZeroExactly(sys);
    }
  }

  lemma WaitingBatchDisagrees(sys: System, block: nat)
    requires Settled(sys) && !QueueBelow(sys, block)
    ensures !PointersAgree(Reorg(sys, block))
  {
    var r :| r in sys.queue && r.task.to >= block;
    var c := sys.queue[0].task.contract;
    ChainBounds(sys.queue, c, sys.repo.last[c] + 1, sys.sm.frontier[c]);
    ChainEnds(sys.queue, c, sys.repo.last[c] + 1, sys.sm.frontier[c]);
    var sys' := Reorg(sys, block);
    if PointersAgree(sys') {
      ChainEnds(sys'.queue, c, sys'.repo.last[c] + 1, sys'.sm.frontier[c]);
    }
  }

  lemma BlockZeroExactly(sys: System)
    requires Settled(sys) && QueueBelow(sys, 0)
    ensures PointersAgree(Reorg(sys, 0)) <==> forall c | c in sys.sm.frontier :: sys.sm.frontier[c] == 0
  {
    var sys' := Reorg(sys, 0);
    if exists c :: c in sys.sm.frontier && sys.sm.frontier[c] != 0 {
      var c :| c in sys.sm.frontier && sys.sm.frontier[c] != 0;
      assert sys'.repo.last[c] == 0 && sys'.sm.frontier[c] == 0;
      assert !Chain(Waiting(sys', c), c, sys'.repo.last[c] + 1, sys'.sm.frontier[c]);
    }
  }

  /**
   No write of the run fails, no reorganisation is interrupted, and each is at a positive block that no
   waiting batch reaches.
   */
  ghost predicate Calm(sys: System, ops: seq<Op>) {
    if ops == [] then true
    else
      var before, op := ops[..|ops| - 1], ops[|ops| - 1];
      && Calm(sys, before) && !op.FailOp? && !op.RollbackOp? && !op.DeleteOp? && !op.ResetOp?
      && (op.ReorgOp? ==> op.block >= 1 && QueueBelow(Run(sys, before), op.block))
  }

  ghost predicate HonestOps(ops: seq<Op>) {
    forall op | op in ops && op.ReceiveOp? :: Honest(op.result)
  }

  lemma {:induction false} CalmRunKeepsSettled(sys: System, ops: seq<Op>)
    requires Settled(sys) && Calm(sys, ops) && HonestOps(ops)
    ensures Settled(Run(sys, ops))
  {
    if ops != [] {
      var before, op := ops[..|ops| - 1], ops[|ops| - 1];
      assert ops == before + [op];
      CalmRunKeepsSettled(sys, before);
      match op
      case ReceiveOp(r) => ReceiveKeepsSettled(Run(sys, before), r);
      case StoreOp => StoreKeepsSettled(Run(sys, before));
      case PointOp => PointKeepsSettled(Run(sys, before));
      case ReorgOp(b) => ReorgKeepsSettled(Run(sys, before), b);
      case _ =>
    }
  }

  /**
   In every calm run from a loaded state, last_indexed_block + 1 is the frontier of every contract
   whose batches are written, it never passes the frontier, and no stored event lies at or past it.
   */
  lemma PointersFollowFrontier(rows: map<Contract, int>, ops: seq<Op>, c: Contract)
    requires forall x | x in rows :: rows[x] >= -1
    requires c in rows && HonestOps(ops) && Calm(Initial(rows).sys, ops)
    ensures var sys := Run(Initial(rows).sys, ops);
      && c in sys.sm.frontier && c in sys.repo.last
      && sys.repo.last[c] + 1 <= sys.sm.frontier[c]
      && (sys.repo.last[c] + 1 == sys.sm.frontier[c] <==> Waiting(sys, c) == [])
      && (forall id | id in sys.repo.stored && sys.repo.stored[id].contract == c ::
            sys.repo.stored[id].block < sys.sm.frontier[c])
  {
    var t0 := Initial(rows);
    CalmRunKeepsSettled(t0.sys, ops);
    RunKeepsOrdered(t0, ops);
    TrackedRunIsRun(t0, ops);
    var sys := Run(t0.sys, ops);
    ChainBounds(Waiting(sys, c), c, sys.repo.last[c] + 1, sys.sm.frontier[c]);
  }

  // ---------------------------------------------------------------------------
  // No event of a committed range is missing
  // ---------------------------------------------------------------------------

  /** An identity names one log, and one contract emitted it. */
  ghost predicate Owned(r: Result, owner: nat -> Contract) {
    forall e | e in r.events :: owner(e.id) == e.contract
  }

  /** Of every range released since the last rollback, all events are stored, or the range is waiting to be written. */
  ghost predicate Complete(t: Tracked, owner: nat -> Contract) {
    && AllOwned(t.sys, owner) && StoreOwned(t.sys.repo, owner)
    && LogStored(t, owner) && FirstStored(t.sys, t.sys.repo)
  }

  ghost predicate AllOwned(sys: System, owner: nat -> Contract) {
    && (forall k | k in sys.sm.pending :: Owned(sys.sm.pending[k], owner))
    && (forall r | r in sys.queue :: Owned(r, owner))
  }

  ghost predicate StoreOwned(repo: Repo, owner: nat -> Contract) {
    forall id | id in repo.stored :: repo.stored[id].contract == owner(id)
  }

  ghost predicate LogStored(t: Tracked, owner: nat -> Contract) {
    forall c | c in t.log :: RangesStored(t.log[c], t.sys.queue, t.sys.repo, owner)
  }

  ghost predicate RangesStored(rs: seq<Result>, queue: seq<Result>, repo: Repo, owner: nat -> Contract) {
    forall r | r in rs :: Owned(r, owner) && (r in queue || AllStored(repo, r))
  }

  ghost predicate FirstStored(sys: System, repo: Repo) {
    sys.eventsStored && sys.queue != [] ==> AllStored(repo, sys.queue[0])
  }

  ghost predicate AllStored(repo: Repo, r: Result) {
    forall e | e in r.events :: e.id in repo.stored
  }

  lemma ReceiveKeepsComplete(t: Tracked, r: Result, owner: nat -> Contract)
    requires Settled(t.sys) && Ordered(t) && Complete(t, owner) && Owned(r, owner)
    ensures Complete(TrackedStep(t, ReceiveOp(r)), owner)
  {
    if t.sys.queue == [] {
      var t', c := TrackedStep(t, ReceiveOp(r)), r.task.contract;
      RegisterAdvancesFrontier(t.sys.sm, r);
      var ready := Register(t.sys.sm, r).ready;
      forall x | x in ready
        ensures Owned(x, owner)
      {
        if x != r { var k :| k in t.sys.sm.pending && t.sys.sm.pending[k] == x; }
      }
      assert t'.sys.queue == ready && t'.sys.repo == t.sys.repo;
    }
  }

  lemma StoreKeepsComplete(t: Tracked, owner: nat -> Contract)
    requires Complete(t, owner)
    ensures Complete(TrackedStep(t, StoreOp), owner)
  {
    if t.sys.queue != [] && !t.sys.eventsStored {
      var r, repo, repo' := t.sys.queue[0], t.sys.repo, StoreNext(t.sys).repo;
      InsertedEvents(repo.stored, r.events);
      forall id | id in repo'.stored
        ensures repo'.stored[id].contract == owner(id)
      {
        if id !in repo.stored { assert Owned(r, owner); }
      }
      forall x | AllStored(repo, x)
        ensures AllStored(repo', x)
      {
      }
    }
  }

  lemma PointKeepsComplete(t: Tracked, owner: nat -> Contract)
    requires Complete(t, owner)
    ensures Complete(TrackedStep(t, PointOp), owner)
  {
    if t.sys.queue != [] && t.sys.eventsStored {
      var rest := t.sys.queue[1..];
      assert forall r | r in t.sys.queue :: r == t.sys.queue[0] || r in rest;
    }
  }

  lemma ReorgKeepsComplete(t: Tracked, block: nat, owner: nat -> Contract)
    requires Settled(t.sys) && Ordered(t) && Complete(t, owner) && AllLogHonest(t)
    requires QueueBelow(t.sys, block) && block >= 1
    ensures Complete(TrackedStep(t, ReorgOp(block)), owner)
  {
    ReorgKeepsStored(t, block, owner);
    WaitingEventsKept(t.sys, block, owner);
    ReorgKeepsOwned(t.sys, block, owner);
  }

  lemma ReorgKeepsOwned(sys: System, block: nat, owner: nat -> Contract)
    requires AllOwned(sys, owner) && StoreOwned(sys.repo, owner)
    ensures AllOwned(Reorg(sys, block), owner) && StoreOwned(Reorg(sys, block).repo, owner)
  {
  }

  lemma ReorgKeepsStored(t: Tracked, block: nat, owner: nat -> Contract)
    requires StoreBehindFrontier(t.sys) && t.log.Keys == t.sys.sm.frontier.Keys
    requires StoreOwned(t.sys.repo, owner) && LogStored(t, owner) && AllLogHonest(t)
    ensures LogStored(TrackedStep(t, ReorgOp(block)), owner)
  {
    var t' := TrackedStep(t, ReorgOp(block));
    forall c | c in t'.log
      ensures RangesStored(t'.log[c], t'.sys.queue, t'.sys.repo, owner)
    {
      ReorgOfLog(t, block, c);
      RangesOfOneKept(t, block, owner, c);
    }
  }

  lemma ReorgOfLog(t: Tracked, block: nat, c: Contract)
    requires c in t.log && c in t.sys.sm.frontier
    ensures var t' := TrackedStep(t, ReorgOp(block));
      && t'.sys.queue == t.sys.queue && t'.sys.repo == RepoReorg(t.sys.repo, block)
      && c in t'.log && t'.log[c] == if t.sys.sm.frontier[c] > block then [] else t.log[c]
  {
  }

  lemma RangesOfOneKept(t: Tracked, block: nat, owner: nat -> Contract, c: Contract)
    requires StoreBehindFrontier(t.sys) && c in t.log && c in t.sys.sm.frontier
    requires RangesOf(t.log[c], c) && StoreOwned(t.sys.repo, owner)
    requires RangesStored(t.log[c], t.sys.queue, t.sys.repo, owner)
    ensures RangesStored(if t.sys.sm.frontier[c] > block then [] else t.log[c], t.sys.queue,
        RepoReorg(t.sys.repo, block), owner)
  {
    if t.sys.sm.frontier[c] <= block { RangesKept(t.log[c], t.sys, block, owner, c); }
  }

  lemma RangesKept(rs: seq<Result>, sys: System, block: nat, owner: nat -> Contract, c: Contract)
    requires StoreBehindFrontier(sys) && c in sys.sm.frontier && sys.sm.frontier[c] <= block
    requires RangesOf(rs, c) && StoreOwned(sys.repo, owner) && RangesStored(rs, sys.queue, sys.repo, owner)
    ensures RangesStored(rs, sys.queue, RepoReorg(sys.repo, block), owner)
  {
    forall r | r in rs
      ensures r in sys.queue || AllStored(RepoReorg(sys.repo, block), r)
    {
      if r !in sys.queue { KeptEvents(sys, block, r, c, owner); }
    }
  }

  lemma WaitingEventsKept(sys: System, block: nat, owner: nat -> Contract)
    requires Settled(sys) && QueueBelow(sys, block)
    requires AllOwned(sys, owner) && StoreOwned(sys.repo, owner) && FirstStored(sys, sys.repo)
    ensures FirstStored(sys, RepoReorg(sys.repo, block))
  {
    if sys.eventsStored && sys.queue != [] {
      var c := sys.queue[0].task.contract;
      ChainEnds(sys.queue, c, sys.repo.last[c] + 1, sys.sm.frontier[c]);
      assert sys.queue[|sys.queue| - 1] in sys.queue;
      KeptEvents(sys, block, sys.queue[0], c, owner);
    }
  }

  /** The events of a contract whose frontier the reorganisation does not reach stay stored. */
  lemma KeptEvents(sys: System, block: nat, r: Result, c: Contract, owner: nat -> Contract)
    requires StoreBehindFrontier(sys) && c in sys.sm.frontier && sys.sm.frontier[c] <= block
    requires Owned(r, owner) && r.task.contract == c && Honest(r) && AllStored(sys.repo, r)
    requires StoreOwned(sys.repo, owner)
    ensures AllStored(RepoReorg(sys.repo, block), r)
  {
    forall e | e in r.events
      ensures e.id in RepoReorg(sys.repo, block).stored
    {
      assert sys.repo.stored[e.id].contract == c;
    }
  }

  ghost predicate RangesOf(rs: seq<Result>, c: Contract) {
    forall r | r in rs :: Honest(r) && r.task.contract == c
  }

  ghost predicate AllLogHonest(t: Tracked) {
    forall c | c in t.log :: RangesOf(t.log[c], c)
  }

  lemma StepKeepsLogHonest(t: Tracked, op: Op)
    requires Settled(t.sys) && AllLogHonest(t) && Ordered(t) && (op.ReceiveOp? ==> Honest(op.result))
    ensures AllLogHonest(TrackedStep(t, op))
  {
    match op
    case ReceiveOp(r) =>
      if t.sys.queue == [] && r.task.contract in t.log {
        ReadyIsHonest(t.sys.sm, r);
        AppendedRanges(t.log[r.task.contract], Register(t.sys.sm, r).ready, r.task.contract);
      }
    case ReorgOp(b) => RollbackKeepsLogHonest(t, op);
    case RollbackOp(b) => RollbackKeepsLogHonest(t, op);
    case _ =>
  }

  lemma RollbackKeepsLogHonest(t: Tracked, op: Op)
    requires AllLogHonest(t) && PullsBack(op)
    ensures AllLogHonest(TrackedStep(t, op))
  {
  }

  lemma AppendedRanges(a: seq<Result>, b: seq<Result>, c: Contract)
    requires RangesOf(a, c) && RangesOf(b, c)
    ensures RangesOf(a + b, c)
  {
  }

  lemma ReadyIsHonest(s: State, r: Result)
    requires WellFormed(s) && Honest(r) && forall k | k in s.pending :: Honest(s.pending[k])
    ensures RangesOf(Register(s, r).ready, r.task.contract)
  {
    var c := r.task.contract;
    RegisterAdvancesFrontier(s, r);
    HonestReady(s, r);
    if c in s.frontier { ChainBounds(Register(s, r).ready, c, s.frontier[c], Register(s, r).state.frontier[c]); }
  }

  lemma {:induction false} CalmRunKeepsComplete(t: Tracked, ops: seq<Op>, owner: nat -> Contract)
    requires Settled(t.sys) && Ordered(t) && Complete(t, owner) && AllLogHonest(t)
    requires Calm(t.sys, ops) && HonestOps(ops) && forall op | op in ops && op.ReceiveOp? :: Owned(op.result, owner)
    ensures Complete(TrackedRun(t, ops), owner) && AllLogHonest(TrackedRun(t, ops))
  {
    if ops != [] {
      var before, op := ops[..|ops| - 1], ops[|ops| - 1];
      assert ops == before + [op];
      CalmRunKeepsComplete(t, before, owner);
      CalmRunKeepsSettled(t.sys, before);
      TrackedRunIsRun(t, before);
      RunKeepsOrdered(t, before);
      var t0 := TrackedRun(t, before);
      StepKeepsLogHonest(t0, op);
      match op
      case ReceiveOp(r) => ReceiveKeepsComplete(t0, r, owner);
      case StoreOp => StoreKeepsComplete(t0, owner);
      case PointOp => PointKeepsComplete(t0, owner);
      case ReorgOp(b) => ReorgKeepsComplete(t0, b, owner);
      case _ =>
    }
  }

  /**
   In every calm run from a loaded state, every event of every range released since its contract's
   last rollback is stored, but for the ranges still waiting to be written.
   */
  lemma ReleasedEventsAreStored(rows: map<Contract, int>, ops: seq<Op>, c: Contract, r: Result, e: Event,
                                owner: nat -> Contract)
    requires forall x | x in rows :: rows[x] >= -1
    requires HonestOps(ops) && forall op | op in ops && op.ReceiveOp? :: Owned(op.result, owner)
    requires Calm(Initial(rows).sys, ops)
    requires var t := TrackedRun(Initial(rows), ops); c in t.log && r in t.log[c] && e in r.events && r !in t.sys.queue
    ensures e.id in TrackedRun(Initial(rows), ops).sys.repo.stored
  {
    InitialIsComplete(rows, owner);
    CalmRunKeepsComplete(Initial(rows), ops, owner);
    StoredWhenWritten(TrackedRun(Initial(rows), ops), c, r, e, owner);
  }

  lemma InitialIsComplete(rows: map<Contract, int>, owner: nat -> Contract)
    requires forall x | x in rows :: rows[x] >= -1
    ensures var t := Initial(rows); Settled(t.sys) && Ordered(t) && Complete(t, owner) && AllLogHonest(t)
  {
  }

  lemma StoredWhenWritten(t: Tracked, c: Contract, r: Result, e: Event, owner: nat -> Contract)
    requires Complete(t, owner) && c in t.log && r in t.log[c] && e in r.events && r !in t.sys.queue
    ensures e.id in t.sys.repo.stored
  {
  }

  // ---------------------------------------------------------------------------
  // When a write fails
  // ---------------------------------------------------------------------------

  lemma {:induction false} FlushedPointer(sys: System, c: Contract, from: nat, end: nat)
    requires sys.queue != [] && Chain(sys.queue, c, from, end) && c in sys.repo.last
    ensures var sys' := Flushed(sys);
      sys'.queue == [] && !sys'.eventsStored && sys'.sm == sys.sm && sys'.repo.last == sys.repo.last[c := end - 1]
    decreases |sys.queue|
  {
    var next := PointNext(StoreNext(sys));
    ChainBounds(sys.queue, c, from, end);
    if |sys.queue| > 1 {
      FlushedPointer(next, c, sys.queue[0].task.to + 1, end);
    } else {
      assert sys.queue[1..] == [];
      assert Flushed(next) == next;
    }
  }

  /**
   A failed write, exactly.  Once the batches after it are written, all pointers agree with the
   frontiers if and only if there are such batches: the next one moves the pointer over the range whose
   write failed.
   */
  lemma FailedWriteHiddenExactly(sys: System)
    requires Settled(sys) && sys.queue != []
    ensures PointersAgree(Flushed(FailNext(sys))) <==> |sys.queue| > 1
  {
    var c := sys.queue[0].task.contract;
    var from, end := sys.repo.last[c] + 1, sys.sm.frontier[c];
    assert Waiting(sys, c) == sys.queue;
    ChainBounds(sys.queue, c, from, end);
    if |sys.queue| > 1 {
      FlushedPointer(FailNext(sys), c, sys.queue[0].task.to + 1, end);
    } else {
      assert sys.queue[1..] == [];
      assert Flushed(FailNext(sys)) == FailNext(sys);
      assert !Chain([], c, from, end);
    }
  }

  // ---------------------------------------------------------------------------
  // A run that is not calm
  // ---------------------------------------------------------------------------

  /** A reorganisation between a release and its write: the pointer ends past the frontier, and stays there. */
  lemma PointerOvertakesFrontier(c: Contract) returns (ops: seq<Op>)
    ensures var sys := Run(Initial(map[c := -1]).sys, ops);
      sys.queue == [] && c in sys.repo.last && c in sys.sm.frontier && sys.repo.last[c] == 4 && sys.sm.frontier[c] == 2
  {
    var sys0 := Initial(map[c := -1]).sys;
    var r := Result(Task(c, 0, 4), []);
    ops := [ReceiveOp(r)] + [ReorgOp(2)] + [StoreOp] + [PointOp];
    RunFour(sys0, ReceiveOp(r), ReorgOp(2), StoreOp, PointOp);
    var p: Pending := map[(c, 0) := r];
    DrainUnfolds(c, 0, p);
    assert p - {(c, 0)} == map[];
    assert Drain(c, 5, map[]) == Drained([], map[], 5);
    assert Receive(sys0, r).queue == [r];
  }

  lemma RunAppend(sys: System, ops: seq<Op>, op: Op)
    ensures Run(sys, ops + [op]) == Step(Run(sys, ops), op)
  {
    assert (ops + [op])[..|ops|] == ops;
  }

  lemma RunFour(sys: System, a: Op, b: Op, c: Op, d: Op)
    ensures Run(sys, [a] + [b] + [c] + [d]) == Step(Step(Step(Step(sys, a), b), c), d)
  {
    RunAppend(sys, [], a);
    assert [] + [a] == [a];
    RunAppend(sys, [a], b);
    RunAppend(sys, [a] + [b], c);
    RunAppend(sys, [a] + [b] + [c], d);
  }
}
