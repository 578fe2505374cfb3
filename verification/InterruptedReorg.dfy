/**
 handle_reorg of the parallel indexer awaits the repository between rolling the frontiers back,
 deleting events and resetting pointers (stellar-lend/indexing_system/src/parallel_indexer.rs), and
 the commit loop may go on in between.
 */
module InterruptedReorg {
  import opened BlockIndexer
  import opened CommitPipeline

  /** What the commit loop may do while a reorganisation at `block` is under way, its deletion included. */
  ghost predicate Between(op: Op, block: nat) {
    op.ReceiveOp? || op.StoreOp? || op.PointOp? || op == DeleteOp(block)
  }

  /**
   The system since the frontiers were rolled back.  `renewed`: the waiting batches were released since
   then.  `overran`: one released since then that reaches the block has been written already.
   */
  datatype Meanwhile = Meanwhile(sys: System, renewed: bool, overran: bool)

  /** The step writes the pointer of a batch that reaches the block. */
  predicate WritesPast(sys: System, op: Op, block: nat) {
    op.PointOp? && sys.queue != [] && sys.eventsStored && sys.queue[0].task.to >= block
  }

  function GoOn(m: Meanwhile, block: nat, op: Op): Meanwhile {
    Meanwhile(Step(m.sys, op),
              m.renewed || (op.ReceiveOp? && m.sys.queue == []),
              m.overran || (m.renewed && WritesPast(m.sys, op, block)))
  }

  function GoesOn(m: Meanwhile, block: nat, ops: seq<Op>): Meanwhile {
    if ops == [] then m else GoOn(GoesOn(m, block, ops[..|ops| - 1]), block, ops[|ops| - 1])
  }

  function AfterRollback(sys: System, block: nat, ops: seq<Op>): Meanwhile {
    GoesOn(Meanwhile(RollbackFrontiers(sys, block), false, false), block, ops)
  }

  lemma {:induction false} GoesOnIsRun(m: Meanwhile, block: nat, ops: seq<Op>)
    ensures GoesOn(m, block, ops).sys == Run(m.sys, ops)
  {
    if ops != [] { GoesOnIsRun(m, block, ops[..|ops| - 1]); }
  }

  // ---------------------------------------------------------------------------
  // Batches released before the rollback
  // ---------------------------------------------------------------------------

  /** The block after the last one of a chain that begins at `from`. */
  function End(rs: seq<Result>, from: int): int {
    if rs == [] then from else rs[|rs| - 1].task.to + 1
  }

  ghost predicate Shaped(sys: System) {
    && WellFormed(sys.sm)
    && sys.sm.frontier.Keys == sys.repo.last.Keys
    && (forall c | c in sys.repo.last :: sys.repo.last[c] >= -1)
    && (forall r | r in sys.queue ::
          r.task.contract in sys.sm.frontier && r.task.contract == sys.queue[0].task.contract)
    && (sys.eventsStored ==> sys.queue != [])
  }

  /** The waiting batches lead to the frontier as it was before it was cut back to `block`. */
  ghost predicate Stale(sys: System, block: nat) {
    Shaped(sys) && forall c | c in sys.repo.last :: StaleFor(sys, c, block)
  }

  ghost predicate StaleFor(sys: System, c: Contract, block: nat) {
    && c in sys.repo.last && c in sys.sm.frontier
    && LeadsTo(Waiting(sys, c), c, sys.repo.last[c] + 1, sys.sm.frontier[c], block)
  }

  ghost predicate LeadsTo(rs: seq<Result>, c: Contract, from: int, frontier: nat, block: nat) {
    from >= 0 && End(rs, from) >= 0 && Chain(rs, c, from, End(rs, from)) && frontier == Min(End(rs, from), block)
  }

  lemma RestLeadsTo(rs: seq<Result>, c: Contract, from: int, frontier: nat, block: nat)
    requires rs != [] && LeadsTo(rs, c, from, frontier, block)
    ensures LeadsTo(rs[1..], c, rs[0].task.to + 1, frontier, block)
    ensures |rs| > 1 ==> rs[1..][0].task.contract == c
  {
    if |rs| > 1 {
      assert rs[1..][|rs| - 2] == rs[|rs| - 1] && rs[1..][0] == rs[1];
      assert Chain(rs[1..], c, rs[0].task.to + 1, End(rs, from));
    }
  }

  /** Cutting back the pointer as well makes the chain end at the frontier exactly if it stays below the block. */
  lemma CutChainExactly(rs: seq<Result>, c: Contract, from: nat, frontier: nat, block: nat)
    requires rs != [] && LeadsTo(rs, c, from, frontier, block)
    ensures Chain(rs, c, if from > block then block else from, frontier) <==>
        forall r | r in rs :: r.task.to < block
  {
    ChainBounds(rs, c, from, End(rs, from));
    if forall r | r in rs :: r.task.to < block {
      assert rs[|rs| - 1] in rs && rs[0] in rs;
    } else if Chain(rs, c, if from > block then block else from, frontier) {
      EndOfChain(rs, c, if from > block then block else from, frontier);
    }
  }

  lemma RestOfChain(rs: seq<Result>, c: Contract, from: nat, end: nat)
    requires rs != [] && Chain(rs, c, from, end)
    ensures Chain(rs[1..], c, rs[0].task.to + 1, end) && rs[0].task.to < end
    ensures forall r | r in rs :: r.task.contract == c
    ensures |rs| > 1 ==> rs[1..][0].task.from == rs[0].task.to + 1
  {
    ChainBounds(rs, c, from, end);
  }

  lemma EndOfChain(rs: seq<Result>, c: Contract, from: nat, end: nat)
    requires Chain(rs, c, from, end)
    ensures End(rs, from) == end
  {
    if rs != [] { ChainEnds(rs, c, from, end); }
  }

  lemma SettledIsShaped(sys: System, block: nat)
    requires Settled(sys)
    ensures Shaped(RollbackFrontiers(sys, block))
  {
    RollbackKeepsWellFormed(sys.sm, block);
    if sys.queue != [] {
      var c := sys.queue[0].task.contract;
      RestOfChain(sys.queue, c, sys.repo.last[c] + 1, sys.sm.frontier[c]);
    }
  }

  lemma CutFrontier(rs: seq<Result>, c: Contract, from: nat, frontier: nat, block: nat)
    requires Chain(rs, c, from, frontier)
    ensures LeadsTo(rs, c, from, Min(frontier, block), block)
  {
    EndOfChain(rs, c, from, frontier);
  }

  lemma RollbackIsStale(sys: System, block: nat)
    requires Settled(sys)
    ensures Stale(RollbackFrontiers(sys, block), block)
  {
    var sys' := RollbackFrontiers(sys, block);
    SettledIsShaped(sys, block);
    forall c | c in sys'.repo.last
      ensures StaleFor(sys', c, block)
    {
      CutFrontier(Waiting(sys, c), c, sys.repo.last[c] + 1, sys.sm.frontier[c], block);
      assert sys'.sm.frontier[c] == Min(sys.sm.frontier[c], block);
    }
  }

  lemma PointKeepsShaped(sys: System)
    requires Shaped(sys)
    ensures Shaped(PointNext(sys))
  {
    if sys.queue != [] { assert forall r | r in sys.queue[1..] :: r in sys.queue; }
  }

  lemma PointStaysStale(sys: System, block: nat)
    requires Stale(sys, block)
    ensures Stale(PointNext(sys), block)
  {
    PointKeepsShaped(sys);
    var sys' := PointNext(sys);
    forall c | c in sys'.repo.last
      ensures StaleFor(sys', c, block)
    {
      PointStaysStaleFor(sys, c, block);
    }
  }

  lemma PointStaysStaleFor(sys: System, c: Contract, block: nat)
    requires Shaped(sys) && StaleFor(sys, c, block)
    ensures StaleFor(PointNext(sys), c, block)
  {
    if sys.queue != [] && sys.eventsStored {
      assert |sys.queue| > 1 ==> sys.queue[1..][0] in sys.queue;
      if sys.queue[0].task.contract == c {
        RestLeadsTo(sys.queue, c, sys.repo.last[c] + 1, sys.sm.frontier[c], block);
      }
    }
  }

  lemma CutPointer(sys: System, block: nat, c: Contract)
    requires Shaped(sys) && c in sys.repo.last && block >= 1
    ensures var last := RepoReorg(sys.repo, block).last;
      c in last && last[c] >= -1 && last[c] + 1 == Min(sys.repo.last[c] + 1, block)
  {
  }

  ghost predicate AgreesFor(sys: System, c: Contract) {
    && c in sys.repo.last && c in sys.sm.frontier && sys.repo.last[c] >= -1
    && Chain(Waiting(sys, c), c, sys.repo.last[c] + 1, sys.sm.frontier[c])
  }

  lemma NotWaitingAgrees(sys: System, block: nat, c: Contract)
    requires Stale(sys, block) && block >= 1 && c in sys.repo.last && Waiting(sys, c) == []
    ensures AgreesFor(ResetPointers(sys, block), c)
  {
    assert StaleFor(sys, c, block);
    CutPointer(sys, block, c);
  }

  lemma WaitingAgreesExactly(sys: System, block: nat, c: Contract)
    requires Stale(sys, block) && block >= 1 && sys.queue != [] && c == sys.queue[0].task.contract
    ensures AgreesFor(ResetPointers(sys, block), c) <==> QueueBelow(sys, block)
  {
    var from, f, sys' := sys.repo.last[c] + 1, sys.sm.frontier[c], ResetPointers(sys, block);
    assert StaleFor(sys, c, block);
    CutPointer(sys, block, c);
    CutChainExactly(sys.queue, c, from, f, block);
    assert Waiting(sys', c) == sys.queue && sys'.sm.frontier[c] == f;
    assert sys'.repo.last[c] + 1 == if from > block then block else from;
  }

  /** While some are waiting, it would do so exactly if none of them reaches the block. */
  lemma WaitingStaleAgreesExactly(sys: System, block: nat)
    requires Stale(sys, block) && block >= 1
    ensures PointersAgree(ResetPointers(sys, block)) <==> QueueBelow(sys, block)
  {
    var sys' := ResetPointers(sys, block);
    forall c | c in sys.repo.last && Waiting(sys, c) == []
      ensures AgreesFor(sys', c)
    {
      NotWaitingAgrees(sys, block, c);
    }
    if sys.queue != [] { WaitingAgreesExactly(sys, block, sys.queue[0].task.contract); }
    AgreesForAll(sys');
  }

  lemma ResetIsShaped(sys: System, block: nat)
    requires Shaped(sys)
    ensures Shaped(ResetPointers(sys, block))
  {
  }

  lemma AgreesForAll(sys: System)
    requires Shaped(sys)
    ensures PointersAgree(sys) <==> forall c | c in sys.repo.last :: AgreesFor(sys, c)
  {
  }

  // ---------------------------------------------------------------------------
  // Batches released after it
  // ---------------------------------------------------------------------------

  /** Resetting the pointers would put all right. */
  ghost predicate Agreeing(sys: System, block: nat) {
    Shaped(sys) && PointersAgree(ResetPointers(sys, block))
  }

  lemma WrittenStaleIsAgreeing(sys: System, block: nat)
    requires Stale(sys, block) && sys.queue == [] && block >= 1
    ensures Agreeing(sys, block)
  {
    WaitingStaleAgreesExactly(sys, block);
  }

  lemma ReceiveStaysAgreeing(sys: System, block: nat, r: Result)
    requires Agreeing(sys, block)
    ensures Agreeing(Receive(sys, r), block)
  {
    if sys.queue == [] {
      var s, c := sys.sm, r.task.contract;
      RegisterAdvancesFrontier(s, r);
      if c in s.frontier {
        ChainBounds(Register(s, r).ready, c, s.frontier[c], Register(s, r).state.frontier[c]);
      }
    }
  }

  lemma PointStaysAgreeing(sys: System, block: nat)
    requires Agreeing(sys, block) && !WritesPast(sys, PointOp, block)
    ensures Agreeing(PointNext(sys), block)
  {
    PointKeepsPointers(ResetPointers(sys, block));
    if sys.queue != [] && sys.eventsStored {
      var c := sys.queue[0].task.contract;
      ChainBounds(sys.queue, c, ResetPointers(sys, block).repo.last[c] + 1, sys.sm.frontier[c]);
      assert forall r | r in sys.queue[1..] :: r in sys.queue;
      assert ResetPointers(PointNext(sys), block) == PointNext(ResetPointers(sys, block));
    }
  }

  /** The pointer of `c` is past the block for good reason, and resetting it would lose what was written. */
  ghost predicate Overrun(sys: System, block: nat, c: Contract) {
    && Shaped(sys) && c in sys.sm.frontier && sys.repo.last[c] >= block && sys.sm.frontier[c] > block
    && var w := Waiting(sys, c);
       w != [] ==> w[0].task.from > block && Chain(w, c, w[0].task.from, sys.sm.frontier[c])
  }

  lemma WritingPastOverruns(sys: System, block: nat)
    requires Agreeing(sys, block) && WritesPast(sys, PointOp, block)
    ensures Overrun(PointNext(sys), block, sys.queue[0].task.contract)
  {
    var c, sys' := sys.queue[0].task.contract, ResetPointers(sys, block);
    assert AgreesFor(sys', c) && Waiting(sys', c) == sys.queue;
    RestOfChain(sys.queue, c, sys'.repo.last[c] + 1, sys.sm.frontier[c]);
    assert forall r | r in sys.queue[1..] :: r in sys.queue;
  }

  lemma ReceiveStaysOverrun(sys: System, block: nat, c: Contract, r: Result)
    requires Overrun(sys, block, c)
    ensures Overrun(Receive(sys, r), block, c)
  {
    if sys.queue == [] {
      var s, rc := sys.sm, r.task.contract;
      RegisterAdvancesFrontier(s, r);
      if rc in s.frontier {
        ChainBounds(Register(s, r).ready, rc, s.frontier[rc], Register(s, r).state.frontier[rc]);
      }
    }
  }

  lemma PointStaysOverrun(sys: System, block: nat, c: Contract)
    requires Overrun(sys, block, c)
    ensures Overrun(PointNext(sys), block, c)
  {
    if sys.queue != [] && sys.eventsStored {
      if sys.queue[0].task.contract == c {
        assert Waiting(sys, c) == sys.queue;
        RestOfChain(sys.queue, c, sys.queue[0].task.from, sys.sm.frontier[c]);
      }
      assert forall r | r in sys.queue[1..] :: r in sys.queue;
    }
  }

  lemma OverrunDisagrees(sys: System, block: nat, c: Contract)
    requires Overrun(sys, block, c) && block >= 1
    ensures !PointersAgree(ResetPointers(sys, block))
  {
    var sys' := ResetPointers(sys, block);
    assert sys'.repo.last[c] == block - 1 && Waiting(sys', c) == Waiting(sys, c);
    assert !AgreesFor(sys', c);
  }

  // ---------------------------------------------------------------------------
  // The exact condition
  // ---------------------------------------------------------------------------

  ghost predicate Tracks(m: Meanwhile, block: nat) {
    if m.overran then exists c :: Overrun(m.sys, block, c)
    else if m.renewed then Agreeing(m.sys, block)
    else Stale(m.sys, block)
  }

  lemma GoOnTracks(m: Meanwhile, block: nat, op: Op)
    requires Tracks(m, block) && Between(op, block) && block >= 1
    ensures Tracks(GoOn(m, block, op), block)
  {
    if m.overran {
      var c :| Overrun(m.sys, block, c);
      OverrunGoesOn(m.sys, block, c, op);
    } else if m.renewed {
      AgreeingGoesOn(m.sys, block, op);
    } else {
      StaleGoesOn(m.sys, block, op);
    }
  }

  // Stored events play no part in any of this.

  lemma StoreKeepsShaped(sys: System, op: Op)
    requires (op.StoreOp? || op.DeleteOp?) && Shaped(sys)
    ensures Shaped(Step(sys, op)) && Step(sys, op).repo.last == sys.repo.last
  {
  }

  lemma StoreStaysStaleFor(sys: System, block: nat, op: Op, c: Contract)
    requires (op.StoreOp? || op.DeleteOp?) && StaleFor(sys, c, block)
    ensures StaleFor(Step(sys, op), c, block)
  {
    assert Waiting(Step(sys, op), c) == Waiting(sys, c);
  }

  lemma StoreStaysStale(sys: System, block: nat, op: Op)
    requires (op.StoreOp? || op.DeleteOp?) && Stale(sys, block)
    ensures Stale(Step(sys, op), block)
  {
    var sys' := Step(sys, op);
    StoreKeepsShaped(sys, op);
    forall c | c in sys'.repo.last
      ensures StaleFor(sys', c, block)
    {
      assert StaleFor(sys, c, block);
      StoreStaysStaleFor(sys, block, op, c);
    }
  }

  lemma StoreStaysOverrun(sys: System, block: nat, op: Op, c: Contract)
    requires (op.StoreOp? || op.DeleteOp?) && Overrun(sys, block, c)
    ensures Overrun(Step(sys, op), block, c)
  {
    assert Waiting(Step(sys, op), c) == Waiting(sys, c);
  }

  lemma StoreStaysAgreeing(sys: System, block: nat, op: Op)
    requires (op.StoreOp? || op.DeleteOp?) && Agreeing(sys, block)
    ensures Agreeing(Step(sys, op), block)
  {
    var sys', a, b := Step(sys, op), ResetPointers(sys, block), ResetPointers(Step(sys, op), block);
    assert Shaped(sys');
    forall c | c in sys.repo.last
      ensures AgreesFor(b, c)
    {
      assert AgreesFor(a, c) && Waiting(b, c) == Waiting(a, c);
    }
    ResetIsShaped(sys', block);
    AgreesForAll(b);
  }

  lemma OverrunGoesOn(sys: System, block: nat, c: Contract, op: Op)
    requires Overrun(sys, block, c) && Between(op, block)
    ensures Overrun(Step(sys, op), block, c)
  {
    match op
    case ReceiveOp(r) => ReceiveStaysOverrun(sys, block, c, r);
    case PointOp => PointStaysOverrun(sys, block, c);
    case _ => StoreStaysOverrun(sys, block, op, c);
  }

  lemma AgreeingGoesOn(sys: System, block: nat, op: Op)
    requires Agreeing(sys, block) && Between(op, block)
    ensures !WritesPast(sys, op, block) ==> Agreeing(Step(sys, op), block)
    ensures WritesPast(sys, op, block) ==> Overrun(Step(sys, op), block, sys.queue[0].task.contract)
  {
    match op
    case ReceiveOp(r) => ReceiveStaysAgreeing(sys, block, r);
    case PointOp =>
      if WritesPast(sys, op, block) {
        WritingPastOverruns(sys, block);
      } else {
        PointStaysAgreeing(sys, block);
      }
    case _ => StoreStaysAgreeing(sys, block, op);
  }

  lemma StaleGoesOn(sys: System, block: nat, op: Op)
    requires Stale(sys, block) && Between(op, block) && block >= 1
    ensures op.ReceiveOp? && sys.queue == [] ==> Agreeing(Step(sys, op), block)
    ensures !(op.ReceiveOp? && sys.queue == []) ==> Stale(Step(sys, op), block)
  {
    match op
    case ReceiveOp(r) =>
      if sys.queue == [] {
        WrittenStaleIsAgreeing(sys, block);
        ReceiveStaysAgreeing(sys, block, r);
      }
    case PointOp => PointStaysStale(sys, block);
    case _ => StoreStaysStale(sys, block, op);
  }

  lemma {:induction false} GoesOnTracks(m: Meanwhile, block: nat, ops: seq<Op>)
    requires Tracks(m, block) && block >= 1 && forall op | op in ops :: Between(op, block)
    ensures Tracks(GoesOn(m, block, ops), block)
  {
    if ops != [] {
      GoesOnTracks(m, block, ops[..|ops| - 1]);
      GoOnTracks(GoesOn(m, block, ops[..|ops| - 1]), block, ops[|ops| - 1]);
    }
  }

  /**
   A reorganisation during which the commit loop goes on, in any way and for as long as it likes.  Once
   the pointers are reset, they agree with the frontiers if and only if no batch released since the
   rollback that reaches the block was written before the reset, and no batch released before it that
   reaches the block waits to be written after it.
   */
  lemma InterruptedReorgSettlesExactly(sys: System, block: nat, ops: seq<Op>)
    requires Settled(sys) && block >= 1 && forall op | op in ops :: Between(op, block)
    ensures var m := AfterRollback(sys, block, ops);
      && m.sys == Run(Step(sys, Op.RollbackOp(block)), ops)
      && (PointersAgree(Step(m.sys, ResetOp(block))) <==> !m.overran && (m.renewed || QueueBelow(m.sys, block)))
  {
    GoesOnIsRun(Meanwhile(RollbackFrontiers(sys, block), false, false), block, ops);
    RollbackIsStale(sys, block);
    StaleAgreesExactly(RollbackFrontiers(sys, block), block, ops);
  }

  lemma StaleAgreesExactly(sys: System, block: nat, ops: seq<Op>)
    requires Stale(sys, block) && block >= 1 && forall op | op in ops :: Between(op, block)
    ensures var m := GoesOn(Meanwhile(sys, false, false), block, ops);
      PointersAgree(Step(m.sys, ResetOp(block))) <==> !m.overran && (m.renewed || QueueBelow(m.sys, block))
  {
    var m := Meanwhile(sys, false, false);
    GoesOnTracks(m, block, ops);
    TrackedAgreesExactly(GoesOn(m, block, ops), block);
  }

  lemma TrackedAgreesExactly(m: Meanwhile, block: nat)
    requires Tracks(m, block) && block >= 1
    ensures PointersAgree(Step(m.sys, ResetOp(block))) <==> !m.overran && (m.renewed || QueueBelow(m.sys, block))
  {
    if m.overran {
      var c :| Overrun(m.sys, block, c);
      OverrunDisagrees(m.sys, block, c);
    } else if !m.renewed {
      WaitingStaleAgreesExactly(m.sys, block);
    }
  }
}
