/**
 A contract registered while the pipeline runs (register_contract in
 stellar-lend/indexing_system/src/parallel_indexer.rs, the metadata row in repository.rs): its
 frontier is the start block, while its metadata row says that this block is indexed already, so the
 dispatcher begins one block too late.
 */
module LateRegistration {
  import opened BlockIndexer
  import opened CommitPipeline

  function RegisterContract(sys: System, c: Contract, start: nat): System {
    sys.(sm := State(if c in sys.sm.frontier then sys.sm.frontier else sys.sm.frontier[c := start], sys.sm.pending),
         repo := Repo(if c in sys.repo.last then sys.repo.last else sys.repo.last[c := start], sys.repo.stored))
  }

  // ---------------------------------------------------------------------------
  // Runs with a dispatcher
  // ---------------------------------------------------------------------------

  /**
   The pipeline, the tasks sent to the workers so far, and what was released for contract `c` since its
   registration.
   */
  datatype World = World(sys: System, sent: set<Task>, released: seq<Result>)

  datatype Round = Dispatch(task: Task) | Pipeline(op: CommitPipeline.Op)

  function Move(w: World, c: Contract, round: Round): World {
    match round
    case Dispatch(task) => w.(sent := w.sent + {task})
    case Pipeline(op) =>
      World(CommitPipeline.Step(w.sys, op), w.sent,
            if op.ReceiveOp? && op.result.task.contract == c && w.sys.queue == []
            then w.released + Register(w.sys.sm, op.result).ready else w.released)
  }

  function Moves(w: World, c: Contract, rounds: seq<Round>): World {
    if rounds == [] then w else Move(Moves(w, c, rounds[..|rounds| - 1]), c, rounds[|rounds| - 1])
  }

  /**
   A task starts behind its contract's pointer, a result answers a task that was sent, reorganisations
   are not interrupted, and block 0 is not reorganised.
   */
  ghost predicate Allowed(w: World, round: Round) {
    match round
    case Dispatch(task) => task.contract in w.sys.repo.last && task.from > w.sys.repo.last[task.contract]
    case Pipeline(op) =>
      && !op.RollbackOp? && !op.DeleteOp? && !op.ResetOp?
      && (op.ReceiveOp? ==> op.result.task in w.sent) && (op.ReorgOp? ==> op.block >= 1)
  }

  ghost predicate AllAllowed(w: World, c: Contract, rounds: seq<Round>) {
    rounds == [] ||
    (AllAllowed(w, c, rounds[..|rounds| - 1]) && Allowed(Moves(w, c, rounds[..|rounds| - 1]), rounds[|rounds| - 1]))
  }

  /** The round is a reorganisation at or below `block`. */
  predicate Reaches(round: Round, block: nat) {
    round.Pipeline? && round.op.ReorgOp? && round.op.block <= block
  }

  predicate IsReorg(round: Round) { round.Pipeline? && round.op.ReorgOp? }

  lemma {:induction false} MovesOn(w: World, c: Contract, a: seq<Round>, b: seq<Round>)
    ensures Moves(w, c, a + b) == Moves(Moves(w, c, a), c, b)
    ensures AllAllowed(w, c, a + b) <==> AllAllowed(w, c, a) && AllAllowed(Moves(w, c, a), c, b)
  {
    if b == [] {
      assert a + b == a;
    } else {
      MovesOn(w, c, a, b[..|b| - 1]);
      assert (a + b)[..|a + b| - 1] == a + b[..|b| - 1];
    }
  }

  // ---------------------------------------------------------------------------
  // Stalled, and how it ends
  // ---------------------------------------------------------------------------

  /** Nothing of `c` can be released: all that was sent, answered or will be sent starts behind its frontier. */
  ghost predicate Stalled(w: World, c: Contract, start: nat) {
    && Keyed(w.sys.sm.pending)
    && c in w.sys.sm.frontier && w.sys.sm.frontier[c] == start
    && c in w.sys.repo.last && w.sys.repo.last[c] == start
    && (forall k | k in w.sys.sm.pending && k.0 == c :: k.1 > start)
    && (forall t | t in w.sent && t.contract == c :: t.from > start)
    && NoneWaiting(w, c)
  }

  ghost predicate NoneWaiting(w: World, c: Contract) {
    (forall r | r in w.sys.queue :: r.task.contract != c) && w.released == []
  }

  /** The pointer is the block before the frontier, so the next task sent is the one waited for. */
  ghost predicate Ready(w: World, c: Contract) {
    && Keyed(w.sys.sm.pending)
    && c in w.sys.sm.frontier && c in w.sys.repo.last && w.sys.repo.last[c] + 1 == w.sys.sm.frontier[c]
    && NoneWaiting(w, c)
  }

  lemma ReceiveStaysStalled(w: World, c: Contract, start: nat, r: Result)
    requires Stalled(w, c, start) && r.task in w.sent
    ensures Stalled(Move(w, c, Pipeline(ReceiveOp(r))), c, start)
  {
    var s, rc := w.sys.sm, r.task.contract;
    if w.sys.queue == [] && rc in s.frontier {
      var p := s.pending[(rc, r.task.from) := r];
      DrainReleasesMaximalChain(rc, s.frontier[rc], p);
      ChainBounds(Drain(rc, s.frontier[rc], p).ready, rc, s.frontier[rc], Drain(rc, s.frontier[rc], p).next);
    }
  }

  lemma RestOfQueue(queue: seq<Result>)
    ensures queue != [] ==> queue[0] in queue && forall r | r in queue[1..] :: r in queue
  {
  }

  lemma StaysStalled(w: World, c: Contract, start: nat, round: Round)
    requires Stalled(w, c, start) && Allowed(w, round) && !Reaches(round, start)
    ensures Stalled(Move(w, c, round), c, start)
  {
    match round
    case Dispatch(task) =>
    case Pipeline(op) =>
      match op
      case ReceiveOp(r) => ReceiveStaysStalled(w, c, start, r);
      case StoreOp =>
      case PointOp => RestOfQueue(w.sys.queue);
      case FailOp => RestOfQueue(w.sys.queue);
      case _ =>
  }

  /** A reorganisation at or below the start puts pointer and frontier side by side. */
  lemma ReorgMakesReady(w: World, c: Contract, start: nat, block: nat)
    requires Stalled(w, c, start) && 1 <= block <= start
    ensures Ready(Move(w, c, Pipeline(ReorgOp(block))), c)
  {
  }

  lemma StaysReady(w: World, c: Contract, round: Round)
    requires Ready(w, c) && Allowed(w, round) && Move(w, c, round).released == []
    ensures Ready(Move(w, c, round), c)
  {
    match round
    case Dispatch(task) =>
    case Pipeline(op) =>
      match op
      case ReceiveOp(r) => ReceiveStaysReady(w, c, r);
      case StoreOp =>
      case PointOp => RestOfQueue(w.sys.queue);
      case FailOp => RestOfQueue(w.sys.queue);
      case _ =>
  }

  lemma ReceiveStaysReady(w: World, c: Contract, r: Result)
    requires Ready(w, c) && Move(w, c, Pipeline(ReceiveOp(r))).released == []
    ensures Ready(Move(w, c, Pipeline(ReceiveOp(r))), c)
  {
    var s, rc := w.sys.sm, r.task.contract;
    if w.sys.queue == [] && rc in s.frontier {
      var p := s.pending[(rc, r.task.from) := r];
      DrainReleasesMaximalChain(rc, s.frontier[rc], p);
      ChainBounds(Drain(rc, s.frontier[rc], p).ready, rc, s.frontier[rc], Drain(rc, s.frontier[rc], p).next);
    }
  }

  lemma ReleasedOnlyGrows(w: World, c: Contract, round: Round)
    ensures w.released != [] ==> Move(w, c, round).released != []
  {
  }

  /** As long as nothing was released: stalled, or ready once a reorganisation reached the start. */
  lemma {:induction false} StalledOrReady(w: World, c: Contract, start: nat, rounds: seq<Round>)
    requires Stalled(w, c, start) && AllAllowed(w, c, rounds)
    ensures (forall round | round in rounds :: !Reaches(round, start)) ==> Stalled(Moves(w, c, rounds), c, start)
    ensures Moves(w, c, rounds).released == [] && (exists round :: round in rounds && Reaches(round, start))
        ==> Ready(Moves(w, c, rounds), c)
  {
    if rounds != [] {
      var before, round := rounds[..|rounds| - 1], rounds[|rounds| - 1];
      assert rounds == before + [round];
      StalledOrReady(w, c, start, before);
      var w0 := Moves(w, c, before);
      ReleasedOnlyGrows(w0, c, round);
      if forall x | x in before :: !Reaches(x, start) {
        if Reaches(round, start) {
          ReorgMakesReady(w0, c, start, round.op.block);
        } else {
          StaysStalled(w0, c, start, round);
        }
      } else if Moves(w, c, rounds).released == [] {
        StaysReady(w0, c, round);
      }
    }
  }

  // ---------------------------------------------------------------------------
  // A way on
  // ---------------------------------------------------------------------------

  ghost predicate NoReorg(rounds: seq<Round>) {
    forall round | round in rounds :: !IsReorg(round)
  }

  /** The commit loop writes what is waiting. */
  lemma {:induction false} Flush(w: World, c: Contract) returns (rounds: seq<Round>)
    requires Ready(w, c)
    ensures AllAllowed(w, c, rounds) && NoReorg(rounds)
    ensures Ready(Moves(w, c, rounds), c) && Moves(w, c, rounds).sys.queue == []
    decreases |w.sys.queue|
  {
    if w.sys.queue == [] {
      rounds := [];
    } else {
      var w1 := Move(w, c, Pipeline(StoreOp));
      var w2 := Move(w1, c, Pipeline(PointOp));
      StaysReady(w, c, Pipeline(StoreOp));
      StaysReady(w1, c, Pipeline(PointOp));
      var rest := Flush(w2, c);
      TwoMoves(w, c, Pipeline(StoreOp), Pipeline(PointOp));
      MovesOn(w, c, [Pipeline(StoreOp), Pipeline(PointOp)], rest);
      rounds := [Pipeline(StoreOp), Pipeline(PointOp)] + rest;
    }
  }

  lemma TwoMoves(w: World, c: Contract, a: Round, b: Round)
    ensures Moves(w, c, [a, b]) == Move(Move(w, c, a), c, b)
    ensures AllAllowed(w, c, [a, b]) <==> Allowed(w, a) && Allowed(Move(w, c, a), b)
  {
    assert [a, b][..1] == [a];
    assert [a][..0] == [];
    assert Moves(w, c, []) == w && AllAllowed(w, c, []);
    assert Moves(w, c, [a]) == Move(w, c, a);
    assert AllAllowed(w, c, [a]) <==> Allowed(w, a);
  }

  /** Then the dispatcher sends the block the frontier waits for, and its result is released. */
  lemma SendNext(w: World, c: Contract) returns (rounds: seq<Round>)
    requires Ready(w, c) && w.sys.queue == []
    ensures AllAllowed(w, c, rounds) && NoReorg(rounds)
    ensures Moves(w, c, rounds).released != []
  {
    var f := w.sys.sm.frontier[c];
    var r := Result(Task(c, f, f), []);
    var send, answer := Dispatch(r.task), Pipeline(ReceiveOp(r));
    rounds := [send, answer];
    TwoMoves(w, c, send, answer);
    DrainUnfolds(c, f, w.sys.sm.pending[(c, f) := r]);
    assert Register(w.sys.sm, r).ready != [];
  }

  lemma ReadyGoesOn(w: World, c: Contract) returns (rounds: seq<Round>)
    requires Ready(w, c)
    ensures AllAllowed(w, c, rounds) && NoReorg(rounds)
    ensures Moves(w, c, rounds).released != []
  {
    var a := Flush(w, c);
    var b := SendNext(Moves(w, c, a), c);
    MovesOn(w, c, a, b);
    rounds := a + b;
  }

  /**
   The stall, exactly.  Let a contract be registered with start block `start` while the pipeline runs,
   and let anything follow that releases nothing for it.  Some continuation without a further
   reorganisation releases something for it if and only if a reorganisation at or below `start` is
   among what followed.
   */
  lemma LateRegistrationStallsExactly(sys: System, sent: set<Task>, c: Contract, start: nat, rounds: seq<Round>)
    requires Keyed(sys.sm.pending) && c !in sys.sm.frontier && c !in sys.repo.last
    requires forall k | k in sys.sm.pending :: k.0 != c
    requires forall r | r in sys.queue :: r.task.contract != c
    requires forall t | t in sent :: t.contract != c
    requires var w := World(RegisterContract(sys, c, start), sent, []);
      AllAllowed(w, c, rounds) && Moves(w, c, rounds).released == []
    ensures var w := Moves(World(RegisterContract(sys, c, start), sent, []), c, rounds);
      (exists more :: AllAllowed(w, c, more) && NoReorg(more) && Moves(w, c, more).released != [])
      <==> exists round :: round in rounds && Reaches(round, start)
  {
    var w0 := World(RegisterContract(sys, c, start), sent, []);
    var w := Moves(w0, c, rounds);
    StalledOrReady(w0, c, start, rounds);
    if exists round :: round in rounds && Reaches(round, start) {
      var more := ReadyGoesOn(w, c);
    } else {
      forall more | AllAllowed(w, c, more) && NoReorg(more)
        ensures Moves(w, c, more).released == []
      {
        StalledOrReady(w, c, start, more);
      }
    }
  }
}
