/**
 What the StateManager holds and releases, read off the list of all registrations and rollbacks
 (stellar-lend/indexing_system/src/parallel_indexer.rs).
 */
module RegistrationHistory {
  import opened BlockIndexer

  function KeyOf(r: Result): Key { (r.task.contract, r.task.from) }

  predicate Registers(op: ManagerOp, k: Key) {
    op.RegisterOp? && KeyOf(op.result) == k
  }

  /** Operation `i` registers `x`, and no later one registers a result for the same contract and first block. */
  ghost predicate LastAt(ops: seq<ManagerOp>, i: int, x: Result) {
    && 0 <= i < |ops| && ops[i] == RegisterOp(x)
    && forall j | i < j < |ops| :: !Registers(ops[j], KeyOf(x))
  }

  /** `x` is the last result registered for its contract and first block. */
  ghost predicate IsLast(ops: seq<ManagerOp>, x: Result) {
    exists i :: LastAt(ops, i, x)
  }

  lemma LastUnfolds(before: seq<ManagerOp>, op: ManagerOp, x: Result)
    ensures IsLast(before + [op], x) <==> op == RegisterOp(x) || (IsLast(before, x) && !Registers(op, KeyOf(x)))
  {
    var ops, n := before + [op], |before|;
    assert LastAt(ops, n, x) <==> op == RegisterOp(x);
    forall i | 0 <= i < n
      ensures LastAt(ops, i, x) <==> LastAt(before, i, x) && !Registers(op, KeyOf(x))
    {
      assert forall j | 0 <= j < n :: ops[j] == before[j];
      assert ops[n] == op;
    }
  }

  /** The step returns a range that starts where the key says, or rolls it back. */
  ghost predicate TakesOut(s: State, op: ManagerOp, k: Key) {
    match op
    case RegisterOp(r) => exists x :: x in Register(s, r).ready && KeyOf(x) == k
    case RollbackOp(b) => b <= k.1
  }

  /**
   `x` was registered, no result for its contract and first block was registered after it, and neither
   that registration nor any later operation returned it or rolled it back.
   */
  ghost predicate Awaits(s: State, ops: seq<ManagerOp>, x: Result) {
    ops != [] &&
    var before, op := ops[..|ops| - 1], ops[|ops| - 1];
    && !TakesOut(ManagerRun(s, before), op, KeyOf(x))
    && (op == RegisterOp(x) || (!Registers(op, KeyOf(x)) && Awaits(s, before, x)))
  }

  ghost predicate Holds(s: State, x: Result) {
    KeyOf(x) in s.pending && s.pending[KeyOf(x)] == x
  }

  lemma RegisterHolds(s: State, r: Result, x: Result)
    requires WellFormed(s)
    ensures Holds(Register(s, r).state, x) <==>
        !TakesOut(s, RegisterOp(r), KeyOf(x)) && (r == x || (KeyOf(r) != KeyOf(x) && Holds(s, x)))
  {
    var c, p, k := r.task.contract, s.pending[KeyOf(r) := r], KeyOf(x);
    if c in s.frontier {
      var d := Drain(c, s.frontier[c], p);
      DrainReleasesMaximalChain(c, s.frontier[c], p);
      if k in p && k !in d.pending { assert p[k] in d.ready && KeyOf(p[k]) == k; }
      DrainedLeave(c, s.frontier[c], p, k);
    }
  }

  /** What was drained is no longer pending. */
  lemma {:induction false} DrainedLeave(c: Contract, next: nat, p: Pending, k: Key)
    requires Keyed(p)
    ensures forall x | x in Drain(c, next, p).ready && KeyOf(x) == k :: k !in Drain(c, next, p).pending
    decreases |p|
  {
    if (c, next) in p {
      DrainUnfolds(c, next, p);
      var rest := p - {(c, next)};
      DrainedLeave(c, p[(c, next)].task.to + 1, rest, k);
      DrainReleasesMaximalChain(c, p[(c, next)].task.to + 1, rest);
    }
  }

  lemma {:induction false} RunKeepsWellFormed(s: State, ops: seq<ManagerOp>)
    requires WellFormed(s)
    ensures WellFormed(ManagerRun(s, ops))
  {
    if ops != [] {
      RunKeepsWellFormed(s, ops[..|ops| - 1]);
      StepKeepsWellFormed(ManagerRun(s, ops[..|ops| - 1]), ops[|ops| - 1]);
    }
  }

  lemma StepKeepsWellFormed(s: State, op: ManagerOp)
    requires WellFormed(s)
    ensures WellFormed(ManagerStep(s, op))
  {
    if op.RegisterOp? { RegisterAdvancesFrontier(s, op.result); }
  }

  /**
   No result is lost, kept too long or mixed up with an older one: after any run of registrations and
   rollbacks, of known and unknown contracts, a result is pending if and only if it is the last one
   registered for its contract and first block and was neither returned nor rolled back since.
   */
  lemma {:induction false} PendingExactly(frontier: map<Contract, nat>, ops: seq<ManagerOp>, x: Result)
    ensures var s := State(frontier, map[]); Holds(ManagerRun(s, ops), x) <==> Awaits(s, ops, x)
  {
    var s := State(frontier, map[]);
    if ops != [] {
      var before, op := ops[..|ops| - 1], ops[|ops| - 1];
      PendingExactly(frontier, before, x);
      RunKeepsWellFormed(s, before);
      if op.RegisterOp? { RegisterHolds(ManagerRun(s, before), op.result, x); }
    }
  }

  lemma {:induction false} AwaitedIsLast(s: State, ops: seq<ManagerOp>, x: Result)
    requires Awaits(s, ops, x)
    ensures IsLast(ops, x)
  {
    var before, op := ops[..|ops| - 1], ops[|ops| - 1];
    assert ops == before + [op];
    LastUnfolds(before, op, x);
    if op != RegisterOp(x) { AwaitedIsLast(s, before, x); }
  }

  /**
   Whatever a registration returns, after any run, is the last result registered for its contract and
   first block, the present one included: the result of a range that was dispatched again replaces the
   earlier one.
   */
  lemma ReleasedIsLast(frontier: map<Contract, nat>, ops: seq<ManagerOp>, r: Result, x: Result)
    requires x in Register(ManagerRun(State(frontier, map[]), ops), r).ready
    ensures IsLast(ops + [RegisterOp(r)], x)
  {
    var s0 := State(frontier, map[]);
    var s := ManagerRun(s0, ops);
    RunKeepsWellFormed(s0, ops);
    ReadyWasHeld(s, r, x);
    PendingExactly(frontier, ops, x);
    if x != r { AwaitedIsLast(s0, ops, x); }
    LastUnfolds(ops, RegisterOp(r), x);
  }

  lemma ReadyWasHeld(s: State, r: Result, x: Result)
    requires WellFormed(s) && x in Register(s, r).ready
    ensures x == r || (KeyOf(x) != KeyOf(r) && Holds(s, x))
  {
    var c, p := r.task.contract, s.pending[KeyOf(r) := r];
    DrainReleasesMaximalChain(c, s.frontier[c], p);
    ChainBounds(Drain(c, s.frontier[c], p).ready, c, s.frontier[c], Drain(c, s.frontier[c], p).next);
    assert p[(c, x.task.from)] == x;
  }

  // ---------------------------------------------------------------------------
  // The start
  // ---------------------------------------------------------------------------

  /** The state manager starts with the number given last for each listed contract, and no other. */
  lemma {:induction false} LastPairCounts(pairs: seq<(Contract, nat)>, c: Contract)
    ensures c in FromPairs(pairs) <==> exists i :: 0 <= i < |pairs| && pairs[i].0 == c
    ensures forall i | 0 <= i < |pairs| && pairs[i].0 == c && (forall j | i < j < |pairs| :: pairs[j].0 != c) ::
        c in FromPairs(pairs) && FromPairs(pairs)[c] == pairs[i].1
  {
    if pairs != [] {
      var before, n := pairs[..|pairs| - 1], |pairs| - 1;
      LastPairCounts(before, c);
      assert forall i | 0 <= i < n :: pairs[i] == before[i];
    }
  }
}
