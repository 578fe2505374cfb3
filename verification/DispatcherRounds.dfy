/**
 The dispatcher sends a round of tasks for a contract again and again, while results of earlier rounds,
 cut at other blocks, are pending or still come in
 (stellar-lend/indexing_system/src/parallel_indexer.rs).
 */
module DispatcherRounds {
  import opened BlockIndexer

  /** A result that starts at block `from` was released, or waits for the frontier. */
  ghost predicate Answered(s: State, c: Contract, from: nat) {
    c in s.frontier && (from < s.frontier[c] || (c, from) in s.pending)
  }

  lemma RegisterAnswers(s: State, r: Result, c: Contract, from: nat)
    requires WellFormed(s) && c in s.frontier
    requires Answered(s, c, from) || (r.task.contract == c && r.task.from == from)
    ensures Answered(Register(s, r).state, c, from)
  {
    var rc, p := r.task.contract, s.pending[(r.task.contract, r.task.from) := r];
    if rc in s.frontier {
      var d := Drain(rc, s.frontier[rc], p);
      DrainReleasesMaximalChain(rc, s.frontier[rc], p);
      ChainBounds(d.ready, rc, s.frontier[rc], d.next);
    }
  }

  lemma {:induction false} AnswersStay(s: State, rs: seq<Result>, c: Contract)
    requires WellFormed(s) && c in s.frontier
    ensures var s' := RegisterAll(s, rs);
      && WellFormed(s') && c in s'.frontier && s.frontier[c] <= s'.frontier[c]
      && forall r | r in rs && r.task.contract == c :: Answered(s', c, r.task.from)
  {
    if rs != [] {
      var before, last := rs[..|rs| - 1], rs[|rs| - 1];
      assert rs == before + [last];
      AnswersStay(s, before, c);
      var s0 := RegisterAll(s, before);
      RegisterAdvancesFrontier(s0, last);
      FrontierGrows(s0, last, c);
      forall r | r in rs && r.task.contract == c
        ensures Answered(RegisterAll(s, rs), c, r.task.from)
      {
        RegisterAnswers(s0, last, c, r.task.from);
      }
    }
  }

  lemma FrontierGrows(s: State, r: Result, c: Contract)
    requires WellFormed(s) && c in s.frontier
    ensures c in Register(s, r).state.frontier && s.frontier[c] <= Register(s, r).state.frontier[c]
  {
    RegisterAdvancesFrontier(s, r);
    if r.task.contract == c {
      ChainBounds(Register(s, r).ready, c, s.frontier[c], Register(s, r).state.frontier[c]);
    }
  }

  // ---------------------------------------------------------------------------
  // What a round guarantees
  // ---------------------------------------------------------------------------

  /** Every block of the interval lies in a tile. */
  lemma {:induction false} TileOf(ts: seq<Task>, c: Contract, n: nat, b: nat) returns (i: nat)
    requires Contiguous(ts, c) && 0 < n <= |ts| && ts[0].from <= b <= ts[n - 1].to
    ensures i < n && ts[i].from <= b <= ts[i].to
  {
    if ts[n - 1].from <= b {
      i := n - 1;
    } else {
      i := TileOf(ts, c, n - 1, b);
    }
  }

  /** The block lies in a tile of the round and is not its first one. */
  ghost predicate InsideTile(ts: seq<Task>, b: nat) {
    exists t :: t in ts && t.from < b <= t.to
  }

  /**
   A round whose tasks were all answered, whatever was pending before and whatever else came in, of the
   same contract or of others, overlapping or not: the frontier is past the tip of the round, or it
   stopped inside one of its tasks, and never at the first block of one.
   */
  lemma RoundReachesTipOrStopsInside(s: State, rs: seq<Result>, c: Contract, ts: seq<Task>, from: nat, tip: nat,
                                     batch: nat)
    requires batch >= 1 && from <= tip && ExactTiling(ts, c, from, tip, batch)
    requires WellFormed(s) && c in s.frontier && from <= s.frontier[c]
    requires forall t | t in ts :: t in TasksOf(rs)
    ensures c in RegisterAll(s, rs).frontier
    ensures var f := RegisterAll(s, rs).frontier[c];
      (f > tip <==> !InsideTile(ts, f)) && forall t | t in ts :: t.from != f
  {
    var s' := RegisterAll(s, rs);
    AnswersStay(s, rs, c);
    var f := s'.frontier[c];
    forall t | t in ts
      ensures t.from != f && t.to <= tip
    {
      var k :| 0 <= k < |rs| && TasksOf(rs)[k] == t;
      assert rs[k] in rs && Answered(s', c, rs[k].task.from);
      TilesEndAtTip(ts, c, from, tip, batch, t);
    }
    if f <= tip {
      var i := TileOf(ts, c, |ts|, f);
      assert ts[i] in ts;
    }
  }

  lemma TilesEndAtTip(ts: seq<Task>, c: Contract, from: nat, tip: nat, batch: nat, t: Task)
    requires ExactTiling(ts, c, from, tip, batch) && t in ts && from <= tip
    ensures t.to <= tip
  {
    var i :| 0 <= i < |ts| && ts[i] == t;
    if i < |ts| - 1 { ContiguousAscends(ts, c, i, |ts| - 1); }
  }

  // ---------------------------------------------------------------------------
  // Rounds that fit together
  // ---------------------------------------------------------------------------

  /** The block is the first one of a task of the round, or past the tip. */
  ghost predicate OnTile(ts: seq<Task>, tip: nat, b: nat) {
    b > tip || exists t :: t in ts && t.from == b
  }

  ghost predicate Fits(ts: seq<Task>, from: nat, tip: nat, r: Result) {
    r.task.to < from || OnTile(ts, tip, r.task.to + 1)
  }

  ghost predicate AllFit(s: State, c: Contract, ts: seq<Task>, from: nat, tip: nat) {
    && WellFormed(s) && c in s.frontier && from <= s.frontier[c] && OnTile(ts, tip, s.frontier[c])
    && forall k | k in s.pending && k.0 == c :: Fits(ts, from, tip, s.pending[k])
  }

  lemma {:induction false} LastOfChain(rs: seq<Result>, c: Contract, from: nat, end: nat)
    requires Chain(rs, c, from, end) && rs != []
    ensures rs[|rs| - 1].task.to + 1 == end && from < end
  {
    ChainBounds(rs, c, from, end);
    if |rs| > 1 {
      LastOfChain(rs[1..], c, rs[0].task.to + 1, end);
      assert rs[1..][|rs| - 2] == rs[|rs| - 1];
    }
  }

  lemma RegisterFits(s: State, r: Result, c: Contract, ts: seq<Task>, from: nat, tip: nat)
    requires AllFit(s, c, ts, from, tip) && (r.task.contract == c ==> Fits(ts, from, tip, r))
    ensures AllFit(Register(s, r).state, c, ts, from, tip)
  {
    var out := Register(s, r);
    RegisterAdvancesFrontier(s, r);
    FrontierGrows(s, r, c);
    if r.task.contract == c && out.ready != [] {
      var last := out.ready[|out.ready| - 1];
      LastOfChain(out.ready, c, s.frontier[c], out.state.frontier[c]);
      ReadyFits(s, r, c, ts, from, tip, last);
    }
  }

  lemma ReadyFits(s: State, r: Result, c: Contract, ts: seq<Task>, from: nat, tip: nat, x: Result)
    requires AllFit(s, c, ts, from, tip) && r.task.contract == c && Fits(ts, from, tip, r)
    requires x in Register(s, r).ready
    ensures Fits(ts, from, tip, x)
  {
    var p := s.pending[(c, r.task.from) := r];
    DrainReleasesMaximalChain(c, s.frontier[c], p);
    assert p[(c, x.task.from)] == x;
  }

  lemma {:induction false} RegisterAllFits(s: State, rs: seq<Result>, c: Contract, ts: seq<Task>, from: nat, tip: nat)
    requires AllFit(s, c, ts, from, tip)
    requires forall r | r in rs && r.task.contract == c :: Fits(ts, from, tip, r)
    ensures AllFit(RegisterAll(s, rs), c, ts, from, tip)
  {
    if rs != [] {
      var before, last := rs[..|rs| - 1], rs[|rs| - 1];
      assert rs == before + [last];
      RegisterAllFits(s, before, c, ts, from, tip);
      RegisterFits(RegisterAll(s, before), last, c, ts, from, tip);
    }
  }

  /**
   If all other results of the contract, pending before or coming in, end where a task of the round
   ends, before the round or past its tip, then a round whose tasks were all answered brings the
   frontier past the tip.
   */
  lemma FittingRoundReachesTip(s: State, rs: seq<Result>, c: Contract, ts: seq<Task>, from: nat, tip: nat, batch: nat)
    requires batch >= 1 && from <= tip && ExactTiling(ts, c, from, tip, batch)
    requires AllFit(s, c, ts, from, tip)
    requires forall r | r in rs && r.task.contract == c :: Fits(ts, from, tip, r)
    requires forall t | t in ts :: t in TasksOf(rs)
    ensures c in RegisterAll(s, rs).frontier && RegisterAll(s, rs).frontier[c] > tip
  {
    RegisterAllFits(s, rs, c, ts, from, tip);
    RoundReachesTipOrStopsInside(s, rs, c, ts, from, tip, batch);
  }

  /** A round of one task, all answered, that an earlier round's shorter task keeps from its tip. */
  lemma EarlierRoundStopsFrontier(c: Contract) returns (rs: seq<Result>)
    ensures ExactTiling([Task(c, 0, 9)], c, 0, 9, 10) && Task(c, 0, 9) in TasksOf(rs)
    ensures var s := RegisterAll(State(map[c := 0], map[]), rs); c in s.frontier && s.frontier[c] == 5
  {
    var short, long := Result(Task(c, 0, 4), []), Result(Task(c, 0, 9), []);
    rs := [short, long];
    assert TasksOf(rs)[1] == Task(c, 0, 9);
    var s0 := State(map[c := 0], map[]);
    var p: Pending := map[(c, 0) := short];
    DrainUnfolds(c, 0, p);
    assert p - {(c, 0)} == map[];
    assert Drain(c, 5, map[]) == Drained([], map[], 5);
    assert rs[..1] == [short] && [short][..0] == [];
    assert RegisterAll(s0, []) == s0;
    var s1 := State(map[c := 5], map[]);
    assert RegisterAll(s0, [short]) == Register(RegisterAll(s0, []), short).state == s1;
    var q: Pending := map[(c, 0) := long];
    assert Drain(c, 5, q) == Drained([], q, 5);
    assert Register(s1, long).state == State(map[c := 5], q);
  }
}
