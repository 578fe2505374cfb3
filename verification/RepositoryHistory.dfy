/**
 What the repository holds and what waits to be written, read off the steps of the commit loop and the
 reorganisation handler (stellar-lend/indexing_system/src/parallel_indexer.rs, repository.rs).
 */
module RepositoryHistory {
  import opened BlockIndexer
  import opened CommitPipeline
  import opened LastWrite
  import opened Options

  // ---------------------------------------------------------------------------
  // Pointers
  // ---------------------------------------------------------------------------

  /** What the step, made in `sys`, writes as the last indexed block of `c`. */
  function PointerWrite(sys: System, op: Op, c: Contract): Option<int>
    requires c in sys.repo.last
  {
    if op.PointOp? && sys.queue != [] && sys.eventsStored && sys.queue[0].task.contract == c
    then Some(sys.queue[0].task.to)
    else if (op.ReorgOp? || op.ResetOp?) && sys.repo.last[c] >= op.block
    then Some(if op.block > 0 then op.block - 1 else 0)
    else None
  }

  ghost function PointerWrites(sys: System, ops: seq<Op>, c: Contract): (w: seq<Option<int>>)
    requires c in sys.repo.last
    ensures |w| == |ops|
  {
    if ops == [] then []
    else
      var before := ops[..|ops| - 1];
      RowsStay(sys, before);
      PointerWrites(sys, before, c) + [PointerWrite(Run(sys, before), ops[|ops| - 1], c)]
  }

  lemma {:induction false} RowsStay(sys: System, ops: seq<Op>)
    ensures Run(sys, ops).repo.last.Keys == sys.repo.last.Keys
  {
    if ops != [] { RowsStay(sys, ops[..|ops| - 1]); }
  }

  lemma PointerIsWritten(sys: System, op: Op, c: Contract)
    requires c in sys.repo.last
    ensures var w := PointerWrite(sys, op, c);
      c in Step(sys, op).repo.last && Step(sys, op).repo.last[c] == if w.Some? then w.value else sys.repo.last[c]
  {
  }

  lemma {:induction false} PointerDecided(sys: System, ops: seq<Op>, c: Contract)
    requires c in sys.repo.last
    ensures c in Run(sys, ops).repo.last
    ensures Decided(PointerWrites(sys, ops, c), sys.repo.last[c], Run(sys, ops).repo.last[c])
  {
    if ops != [] {
      var before, op := ops[..|ops| - 1], ops[|ops| - 1];
      var mid := Run(sys, before);
      PointerDecided(sys, before, c);
      PointerIsWritten(mid, op, c);
      DecidedNext(PointerWrites(sys, before, c), sys.repo.last[c], mid.repo.last[c], PointerWrite(mid, op, c));
    }
  }

  /**
   In every run, whatever fails and however reorganisations fall, a contract's pointer is what was
   written to it last: the last block of a batch, without regard to what was there, or by a reset the
   block before the reorganised one, but only to a pointer that had reached that one.
   */
  lemma PointerExactly(sys: System, ops: seq<Op>, c: Contract, block: int)
    requires c in sys.repo.last
    ensures c in Run(sys, ops).repo.last
    ensures Run(sys, ops).repo.last[c] == block <==> Decided(PointerWrites(sys, ops, c), sys.repo.last[c], block)
  {
    PointerDecided(sys, ops, c);
    DecidedExactly(PointerWrites(sys, ops, c), sys.repo.last[c], Run(sys, ops).repo.last[c], block);
  }

  // ---------------------------------------------------------------------------
  // Stored events
  // ---------------------------------------------------------------------------

  function Held(sys: System, id: nat): Option<Event> {
    if id in sys.repo.stored then Some(sys.repo.stored[id]) else None
  }

  function FirstWith(events: seq<Event>, id: nat): Option<Event> {
    if events == [] then None else if events[0].id == id then Some(events[0]) else FirstWith(events[1..], id)
  }

  /** What becomes of the event stored under `id`: the inner option is the event stored afterwards. */
  function EventWrite(sys: System, op: Op, id: nat): Option<Option<Event>> {
    if op.StoreOp? && sys.queue != [] && !sys.eventsStored && Held(sys, id) == None &&
       FirstWith(sys.queue[0].events, id).Some?
    then Some(FirstWith(sys.queue[0].events, id))
    else if (op.ReorgOp? || op.DeleteOp?) && Held(sys, id).Some? && Held(sys, id).value.block >= op.block
    then Some(None)
    else None
  }

  ghost function EventWrites(sys: System, ops: seq<Op>, id: nat): (w: seq<Option<Option<Event>>>)
    ensures |w| == |ops|
  {
    if ops == [] then []
    else
      var before := ops[..|ops| - 1];
      EventWrites(sys, before, id) + [EventWrite(Run(sys, before), ops[|ops| - 1], id)]
  }

  lemma {:induction false} FirstWithAppend(events: seq<Event>, e: Event, id: nat)
    ensures FirstWith(events + [e], id) ==
        if FirstWith(events, id).Some? then FirstWith(events, id) else if e.id == id then Some(e) else None
  {
    if events != [] {
      assert (events + [e])[1..] == events[1..] + [e];
      FirstWithAppend(events[1..], e, id);
    } else {
      assert ([e])[1..] == [];
    }
  }

  lemma {:induction false} InsertedFirst(stored: map<nat, Event>, events: seq<Event>, id: nat)
    ensures var r := InsertEvents(stored, events);
      if id in stored then id in r && r[id] == stored[id]
      else (id in r <==> FirstWith(events, id).Some?) && (id in r ==> Some(r[id]) == FirstWith(events, id))
  {
    if events != [] {
      var front, e := events[..|events| - 1], events[|events| - 1];
      assert events == front + [e];
      InsertedFirst(stored, front, id);
      FirstWithAppend(front, e, id);
    }
  }

  lemma EventIsWritten(sys: System, op: Op, id: nat)
    ensures var w := EventWrite(sys, op, id); Held(Step(sys, op), id) == if w.Some? then w.value else Held(sys, id)
  {
    if op.StoreOp? && sys.queue != [] && !sys.eventsStored {
      InsertedFirst(sys.repo.stored, sys.queue[0].events, id);
    }
  }

  lemma {:induction false} EventDecided(sys: System, ops: seq<Op>, id: nat)
    ensures Decided(EventWrites(sys, ops, id), Held(sys, id), Held(Run(sys, ops), id))
  {
    if ops != [] {
      var before, op := ops[..|ops| - 1], ops[|ops| - 1];
      var mid := Run(sys, before);
      EventDecided(sys, before, id);
      EventIsWritten(mid, op, id);
      DecidedNext(EventWrites(sys, before, id), Held(sys, id), Held(mid, id), EventWrite(mid, op, id));
    }
  }

  /**
   In every run, whatever the identities of events, the event stored under an identity is the first one
   with it of the batch that was stored when there was none, until its own block is deleted.
   */
  lemma EventExactly(sys: System, ops: seq<Op>, id: nat, e: Option<Event>)
    ensures Held(Run(sys, ops), id) == e <==> Decided(EventWrites(sys, ops, id), Held(sys, id), e)
  {
    EventDecided(sys, ops, id);
    DecidedExactly(EventWrites(sys, ops, id), Held(sys, id), Held(Run(sys, ops), id), e);
  }

  // ---------------------------------------------------------------------------
  // The queue
  // ---------------------------------------------------------------------------

  /** The batches a step hands to the commit loop: a result is taken up only when nothing waits. */
  function ReleasedBy(sys: System, op: Op): seq<Result> {
    if op.ReceiveOp? && sys.queue == [] then Register(sys.sm, op.result).ready else []
  }

  /** The batch a step is done with: its pointer was written, or one of its writes failed. */
  function DoneBy(sys: System, op: Op): seq<Result> {
    if sys.queue != [] && (op.FailOp? || (op.PointOp? && sys.eventsStored)) then [sys.queue[0]] else []
  }

  ghost function AllReleased(sys: System, ops: seq<Op>): seq<Result> {
    if ops == [] then []
    else
      var before := ops[..|ops| - 1];
      AllReleased(sys, before) + ReleasedBy(Run(sys, before), ops[|ops| - 1])
  }

  ghost function AllDone(sys: System, ops: seq<Op>): seq<Result> {
    if ops == [] then []
    else
      var before := ops[..|ops| - 1];
      AllDone(sys, before) + DoneBy(Run(sys, before), ops[|ops| - 1])
  }

  lemma QueueNext(sys: System, op: Op)
    ensures sys.queue + ReleasedBy(sys, op) == DoneBy(sys, op) + Step(sys, op).queue
  {
  }

  lemma Regroup(released: seq<Result>, more: seq<Result>, done: seq<Result>, last: seq<Result>, queue: seq<Result>,
                queue': seq<Result>)
    requires released == done + queue && queue + more == last + queue'
    ensures released + more == done + last + queue'
  {
    assert done + queue + more == done + (queue + more);
    assert done + (last + queue') == done + last + queue';
  }

  /** In every run the batches are written, or given up, in the order in which they were released, none twice. */
  lemma {:induction false} BatchesInOrder(sys: System, ops: seq<Op>)
    requires sys.queue == []
    ensures AllReleased(sys, ops) == AllDone(sys, ops) + Run(sys, ops).queue
  {
    if ops != [] {
      var before, op := ops[..|ops| - 1], ops[|ops| - 1];
      var mid := Run(sys, before);
      BatchesInOrder(sys, before);
      QueueNext(mid, op);
      Regroup(AllReleased(sys, before), ReleasedBy(mid, op), AllDone(sys, before), DoneBy(mid, op), mid.queue,
              Step(mid, op).queue);
    }
  }
}
