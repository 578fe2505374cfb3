/**
 What every tree of nested lending calls keeps: guards follow the call stack, the total is the sum of
 the collateral at every external call and at every return, and every ledger moves by exactly the
 amounts of the calls that were answered with success and not discarded by the host.
 */
module LendingLedgers {
  import opened LendingCalls
  import opened Options

  // ---------------------------------------------------------------------------
  // Sums
  // ---------------------------------------------------------------------------

  ghost function Pick(m: map<User, Position>): User
    requires m != map[]
    ensures Pick(m) in m
  {
    var u :| u in m; u
  }

  /** The collateral of all users together. */
  ghost function SumAmounts(m: map<User, Position>): int
    decreases |m|
  {
    if m == map[] then 0
    else
      var u := Pick(m);
      SmallerWithout(m, u);
      m[u].amount + SumAmounts(m - {u})
  }

  lemma SmallerWithout(m: map<User, Position>, u: User)
    requires u in m
    ensures |m - {u}| < |m|
  {
    assert (m - {u}).Keys == m.Keys - {u};
    assert |(m - {u}).Keys| < |m.Keys|;
  }

  lemma {:induction false} SumWithout(m: map<User, Position>, u: User)
    requires u in m
    ensures SumAmounts(m) == m[u].amount + SumAmounts(m - {u})
    decreases |m|
  {
    var p := Pick(m);
    if p != u {
      SmallerWithout(m, p);
      SmallerWithout(m, u);
      SumWithout(m - {p}, u);
      SumWithout(m - {u}, p);
      assert m - {p} - {u} == m - {u} - {p};
    }
  }

  lemma SumUpdated(m: map<User, Position>, u: User, p: Position)
    ensures SumAmounts(m[u := p]) == SumAmounts(m) + p.amount - if u in m then m[u].amount else 0
  {
    SumWithout(m[u := p], u);
    assert m[u := p] - {u} == m - {u};
    if u in m {
      SumWithout(m, u);
    } else {
      assert m - {u} == m;
    }
  }

  // ---------------------------------------------------------------------------
  // What the answers of a call tree say was moved
  // ---------------------------------------------------------------------------

  /** Amounts moved for one user. */
  datatype Moves = Moves(deposited: int, withdrawn: int, borrowed: int, repaid: int)

  const Nothing := Moves(0, 0, 0, 0)

  function Plus(a: Moves, b: Moves): Moves {
    Moves(a.deposited + b.deposited, a.withdrawn + b.withdrawn, a.borrowed + b.borrowed, a.repaid + b.repaid)
  }

  /** A call that was answered with success moved its amount. */
  function Answered(c: Call, r: Result, u: User): Moves {
    if !r.Ok? then Nothing
    else
      match c
      case DepositCall(_, user, _, amount, _) => if user == u then Nothing.(deposited := amount) else Nothing
      case WithdrawCall(_, user, _, amount, _) => if user == u then Nothing.(withdrawn := amount) else Nothing
      case BorrowCall(_, user, _, amount, _, _) => if user == u then Nothing.(borrowed := amount) else Nothing
      case RepayCall(_, user, _, amount, _) => if user == u then Nothing.(repaid := amount) else Nothing
      case FlashLoanCall(_, _, _, _, _, _, _, _, _, _, _, _) => Nothing
  }

  /** A call with all calls nested in it: nothing if it trapped, since the host discards the whole frame. */
  function CallMoves(s: Storage, stack: seq<Function>, c: Call, u: User): Moves
    decreases c, 1
  {
    var r := Exec(s, stack, c).result;
    if r.Trapped? || Entered(s, c.Key()) then Nothing
    else
      match Effects(SetGuard(s, c.Key(), 1), c)
      case Go(s2, _) => Plus(Answered(c, r, u), NestedMoves(s2, stack + [c.Key()], c, u))
      case Refuse(_) => Nothing
      case Trap => Nothing
  }

  /** The calls made back from the external calls of a frame, as far as it got. */
  function NestedMoves(s: Storage, stack: seq<Function>, c: Call, u: User): Moves
    decreases c, 0
  {
    match c
    case DepositCall(_, _, _, _, e) => CallsMoves(s, stack, e.calls, u)
    case WithdrawCall(_, _, _, _, e) => CallsMoves(s, stack, e.calls, u)
    case BorrowCall(_, _, _, _, _, e) => CallsMoves(s, stack, e.calls, u)
    case RepayCall(_, _, _, _, e) => CallsMoves(s, stack, e.calls, u)
    case FlashLoanCall(_, _, _, _, _, before, _, transfer, callback, agreed, after, _) =>
      var s1, s2, s3 := AfterBefore(s, stack, c), AfterTransfer(s, stack, c), AfterCallback(s, stack, c);
      Plus(Plus(CallsMoves(s, stack, before.calls, u), CallsMoves(s1, stack, transfer.calls, u)),
           Plus(CallsMoves(s2, stack, callback.calls, u),
                if agreed then CallsMoves(s3, stack, after.calls, u) else Nothing))
  }

  /** Calls one after the other; the host discards the effects of a failing one where `undo` says so. */
  function CallsMoves(s: Storage, stack: seq<Function>, calls: Calls, u: User): Moves
    decreases calls, 0
  {
    match calls
    case NoCalls => Nothing
    case Then(c, undo, rest) =>
      var o := Exec(s, stack, c);
      if o.result.Err? && undo then CallsMoves(s, stack, rest, u)
      else Plus(CallMoves(s, stack, c, u), CallsMoves(o.s, stack, rest, u))
  }

  /** The ledgers of `u` went from `s` to `s'` by the amounts `m`, none of which is negative. */
  ghost predicate MovedBy(s: Storage, s': Storage, m: Moves, u: User) {
    && Amount(s', u) == Amount(s, u) + m.deposited
    && Balance(s', u) == Balance(s, u) - m.withdrawn
    && Debt(s', u) == Debt(s, u) + m.borrowed - m.repaid
    && m.deposited >= 0 && m.withdrawn >= 0 && m.borrowed >= 0 && m.repaid >= 0
  }

  /** The effects of a call whose checks pass move its amount, and nothing for other users. */
  lemma EffectsMove(s: Storage, c: Call, u: User)
    requires Effects(s, c).Go?
    ensures MovedBy(s, Effects(s, c).s, Answered(c, Ok(0), u), u)
  {
  }

  lemma {:induction false} CallMatches(s: Storage, stack: seq<Function>, c: Call, u: User)
    ensures MovedBy(s, Exec(s, stack, c).s, CallMoves(s, stack, c, u), u)
    decreases c, 2
  {
    var r := Exec(s, stack, c).result;
    if !r.Trapped? && !Entered(s, c.Key()) {
      var s1 := SetGuard(s, c.Key(), 1);
      match Effects(s1, c)
      case Trap =>
      case Refuse(e) =>
      case Go(s2, value) =>
        EffectsMove(s1, c, u);
        NestedMatch(s2, stack + [c.Key()], c, value, u);
        KeptAnswer(s2, stack + [c.Key()], c, value, u);
    }
  }

  /** A frame that got past its checks and did not trap was answered with success, unless it is a flash loan. */
  lemma KeptAnswer(s: Storage, stack: seq<Function>, c: Call, value: int, u: User)
    requires !Interact(s, stack, c, value).result.Trapped?
    ensures Answered(c, Interact(s, stack, c, value).result, u) == Answered(c, Ok(0), u)
  {
  }

  lemma {:induction false} NestedMatch(s: Storage, stack: seq<Function>, c: Call, value: int, u: User)
    requires !Interact(s, stack, c, value).result.Trapped?
    ensures MovedBy(s, Interact(s, stack, c, value).s, NestedMoves(s, stack, c, u), u)
    decreases c, 1
  {
    match c
    case DepositCall(_, _, _, _, e) => CallsMatch(s, stack, e.calls, u);
    case WithdrawCall(_, _, _, _, e) => CallsMatch(s, stack, e.calls, u);
    case BorrowCall(_, _, _, _, _, e) => CallsMatch(s, stack, e.calls, u);
    case RepayCall(_, _, _, _, e) => CallsMatch(s, stack, e.calls, u);
    case FlashLoanCall(_, _, _, _, _, _, _, _, _, _, _, _) => FlashLoanMatches(s, stack, c, value, u);
  }

  lemma MovedOn(a: Storage, b: Storage, c: Storage, m: Moves, n: Moves, u: User)
    requires MovedBy(a, b, m, u) && MovedBy(b, c, n, u)
    ensures MovedBy(a, c, Plus(m, n), u)
  {
  }

  /** The storages between the external calls of a flash loan. */
  function AfterBefore(s: Storage, stack: seq<Function>, c: Call): Storage
    requires c.FlashLoanCall?
  {
    var l := LoanRecord(c.receiver, c.asset, c.amount, c.fee, c.env.now);
    RunCalls(s, stack, c.balanceBefore.calls).s.(loan := Some(l))
  }

  function AfterTransfer(s: Storage, stack: seq<Function>, c: Call): Storage
    requires c.FlashLoanCall?
  {
    RunCalls(AfterBefore(s, stack, c), stack, c.transfer.calls).s
  }

  function AfterCallback(s: Storage, stack: seq<Function>, c: Call): Storage
    requires c.FlashLoanCall?
  {
    RunCalls(AfterTransfer(s, stack, c), stack, c.callback.calls).s
  }

  lemma FlashLoanStorage(s: Storage, stack: seq<Function>, c: Call, value: int)
    requires c.FlashLoanCall? && !Interact(s, stack, c, value).result.Trapped?
    ensures var s3 := AfterCallback(s, stack, c);
      Interact(s, stack, c, value).s == if c.callbackResult then RunCalls(s3, stack, c.balanceAfter.calls).s else s3
  {
  }

  lemma {:induction false} FlashLoanMatches(s: Storage, stack: seq<Function>, c: Call, value: int, u: User)
    requires c.FlashLoanCall? && !Interact(s, stack, c, value).result.Trapped?
    ensures MovedBy(s, Interact(s, stack, c, value).s, NestedMoves(s, stack, c, u), u)
    decreases c, 0
  {
    var s1, s2, s3 := AfterBefore(s, stack, c), AfterTransfer(s, stack, c), AfterCallback(s, stack, c);
    FlashLoanStorage(s, stack, c, value);
    CallsMatch(s, stack, c.balanceBefore.calls, u);
    CallsMatch(s1, stack, c.transfer.calls, u);
    CallsMatch(s2, stack, c.callback.calls, u);
    var m0, m1 := CallsMoves(s, stack, c.balanceBefore.calls, u), CallsMoves(s1, stack, c.transfer.calls, u);
    var m2 := CallsMoves(s2, stack, c.callback.calls, u);
    MovedOn(s, s1, s2, m0, m1, u);
    var end := Interact(s, stack, c, value).s;
    if c.callbackResult { CallsMatch(s3, stack, c.balanceAfter.calls, u); }
    var m3 := if c.callbackResult then CallsMoves(s3, stack, c.balanceAfter.calls, u) else Nothing;
    MovedOn(s2, s3, end, m2, m3, u);
    MovedOn(s, s2, end, Plus(m0, m1), Plus(m2, m3), u);
  }

  /**
   Conservation: whatever calls are made and wherever, nested to any depth, every user's collateral,
   debt and withdrawal balance change by exactly the amounts of the deposits, borrows, repayments
   and withdrawals that were answered with success in frames that neither trapped nor were undone.
   */
  lemma {:induction false} CallsMatch(s: Storage, stack: seq<Function>, calls: Calls, u: User)
    ensures MovedBy(s, RunCalls(s, stack, calls).s, CallsMoves(s, stack, calls, u), u)
    decreases calls, 0
  {
    match calls
    case NoCalls =>
    case Then(c, undo, rest) =>
      var o := Exec(s, stack, c);
      CallMatches(s, stack, c, u);
      CallsMatch(if o.result.Err? && undo then s else o.s, stack, rest, u);
  }

  // ---------------------------------------------------------------------------
  // The invariant
  // ---------------------------------------------------------------------------

  /** `s` follows from the starting storage `b`. */
  ghost predicate Consistent(b: Storage, s: Storage) {
    && s.total == SumAmounts(s.collateral)
    && (forall u :: Debt(s, u) >= 0)
    && (forall u :: Balance(s, u) >= 0)
    && s.cap == b.cap && s.min == b.min
    && b.total <= s.total && (s.total <= b.total || s.total <= s.cap)
  }

  /** A guard is Entered exactly while a frame of its function is on the stack. */
  ghost predicate GuardsFollow(s: Storage, stack: seq<Function>) {
    forall f :: Entered(s, f) <==> f in stack
  }

  ghost predicate NoRepeats(stack: seq<Function>) {
    forall i, j | 0 <= i < j < |stack| :: stack[i] != stack[j]
  }

  ghost predicate Sound(b: Storage, o: Observation) {
    Consistent(b, o.storage) && GuardsFollow(o.storage, o.stack) && NoRepeats(o.stack)
  }

  ghost predicate AllSound(b: Storage, stack: seq<Function>, o: Outcome) {
    && Consistent(b, o.s) && GuardsFollow(o.s, stack)
    && forall x | x in o.trace :: Sound(b, x)
  }

  lemma SetGuardKeeps(b: Storage, s: Storage, f: Function, state: nat)
    requires Consistent(b, s)
    ensures Consistent(b, SetGuard(s, f, state))
  {
    var s' := SetGuard(s, f, state);
    assert forall u :: Amount(s', u) == Amount(s, u) && Debt(s', u) == Debt(s, u) && Balance(s', u) == Balance(s, u);
  }

  lemma DepositKeeps(b: Storage, s: Storage, env: Env, user: User, asset: Asset, amount: I128)
    requires Consistent(b, s) && DepositEffects(s, env, user, asset, amount).Go?
    ensures Consistent(b, DepositEffects(s, env, user, asset, amount).s)
  {
    var s' := DepositEffects(s, env, user, asset, amount).s;
    SumUpdated(s.collateral, user, s'.collateral[user]);
    assert forall u :: Debt(s', u) == Debt(s, u) && Balance(s', u) == Balance(s, u);
  }

  /** Withdrawing, borrowing and repaying leave the collateral and its total alone. */
  lemma LedgerKeeps(b: Storage, s: Storage, c: Call)
    requires Consistent(b, s) && Effects(s, c).Go? && (c.WithdrawCall? || c.BorrowCall? || c.RepayCall?)
    ensures Consistent(b, Effects(s, c).s)
  {
    var s' := Effects(s, c).s;
    forall u
      ensures Debt(s', u) >= 0 && Balance(s', u) >= 0
    {
      assert Debt(s, u) >= 0 && Balance(s, u) >= 0;
      if u == c.user { EnoughLeft(s, c); } else { EffectsMove(s, c, u); }
    }
  }

  /** What the checks of withdraw and repay are for. */
  lemma EnoughLeft(s: Storage, c: Call)
    requires Effects(s, c).Go? && (c.WithdrawCall? || c.BorrowCall? || c.RepayCall?)
    requires Debt(s, c.user) >= 0 && Balance(s, c.user) >= 0
    ensures Debt(Effects(s, c).s, c.user) >= 0 && Balance(Effects(s, c).s, c.user) >= 0
  {
  }

  lemma EffectsKeep(b: Storage, s: Storage, c: Call)
    requires Consistent(b, s) && Effects(s, c).Go?
    ensures Consistent(b, Effects(s, c).s) && Effects(s, c).s.guards == s.guards
  {
    match c
    case DepositCall(env, user, asset, amount, _) => DepositKeeps(b, s, env, user, asset, amount);
    case WithdrawCall(env, user, _, amount, _) => LedgerKeeps(b, s, c);
    case BorrowCall(env, user, _, amount, collateralAmount, _) => LedgerKeeps(b, s, c);
    case RepayCall(env, user, _, amount, _) => LedgerKeeps(b, s, c);
    case FlashLoanCall(_, _, _, _, _, _, _, _, _, _, _, _) =>
  }

  lemma LoanKeeps(b: Storage, s: Storage, l: LoanRecord, stack: seq<Function>)
    requires Consistent(b, s) && GuardsFollow(s, stack)
    ensures Consistent(b, s.(loan := Some(l))) && GuardsFollow(s.(loan := Some(l)), stack)
  {
    var s' := s.(loan := Some(l));
    assert forall u :: Amount(s', u) == Amount(s, u) && Debt(s', u) == Debt(s, u) && Balance(s', u) == Balance(s, u);
    assert forall f :: Entered(s', f) == Entered(s, f);
  }

  // ---------------------------------------------------------------------------
  // Every call tree
  // ---------------------------------------------------------------------------

  lemma {:induction false} ExecSound(b: Storage, s: Storage, stack: seq<Function>, c: Call)
    requires Consistent(b, s) && GuardsFollow(s, stack) && NoRepeats(stack)
    ensures AllSound(b, stack, Exec(s, stack, c))
    decreases c, 2
  {
    var f := c.Key();
    if !Entered(s, f) {
      var s1 := SetGuard(s, f, 1);
      SetGuardKeeps(b, s, f, 1);
      assert GuardsFollow(s1, stack + [f]);
      match Effects(s1, c)
      case Trap =>
      case Refuse(e) =>
        LeaveSound(b, s, stack, f, Outcome(s1, Err(e), []));
      case Go(s2, value) =>
        EffectsKeep(b, s1, c);
        assert GuardsFollow(s2, stack + [f]);
        InteractSound(b, s2, stack + [f], c, value);
        LeaveSound(b, s, stack, f, Interact(s2, stack + [f], c, value));
    }
  }

  lemma LeaveSound(b: Storage, entry: Storage, stack: seq<Function>, f: Function, o: Outcome)
    requires Consistent(b, entry) && GuardsFollow(entry, stack) && NoRepeats(stack) && f !in stack
    requires AllSound(b, stack + [f], o)
    ensures AllSound(b, stack, Return(entry, stack, f, o))
  {
    if !o.result.Trapped? {
      SetGuardKeeps(b, o.s, f, 0);
      forall g
        ensures Entered(SetGuard(o.s, f, 0), g) <==> g in stack
      {
        assert g in stack + [f] <==> g in stack || g == f;
      }
    }
  }

  lemma FollowSound(b: Storage, stack: seq<Function>, a: Outcome, o: Outcome)
    requires AllSound(b, stack, a) && AllSound(b, stack, o)
    ensures AllSound(b, stack, Follow(a, o))
  {
  }

  lemma {:induction false} InteractSound(b: Storage, s: Storage, stack: seq<Function>, c: Call, value: int)
    requires Consistent(b, s) && GuardsFollow(s, stack) && NoRepeats(stack)
    ensures AllSound(b, stack, Interact(s, stack, c, value))
    decreases c, 1
  {
    match c
    case DepositCall(_, _, _, _, e) => ExternalSound(b, s, stack, e);
    case WithdrawCall(_, _, _, _, e) => ExternalSound(b, s, stack, e);
    case BorrowCall(_, _, _, _, _, e) => ExternalSound(b, s, stack, e);
    case RepayCall(_, _, _, _, e) => ExternalSound(b, s, stack, e);
    case FlashLoanCall(_, _, _, _, _, _, _, _, _, _, _, _) => FlashLoanSound(b, s, stack, c, value);
  }

  lemma {:induction false} FlashLoanSound(b: Storage, s: Storage, stack: seq<Function>, c: Call, value: int)
    requires Consistent(b, s) && GuardsFollow(s, stack) && NoRepeats(stack) && c.FlashLoanCall?
    ensures AllSound(b, stack, Interact(s, stack, c, value))
    decreases c, 0
  {
    ExternalSound(b, s, stack, c.balanceBefore);
    var o1 := RunExternal(s, stack, c.balanceBefore);
    var l := LoanRecord(c.receiver, c.asset, c.amount, c.fee, c.env.now);
    LoanKeeps(b, o1.s, l, stack);
    ExternalSound(b, o1.s.(loan := Some(l)), stack, c.transfer);
    FollowSound(b, stack, o1, RunExternal(o1.s.(loan := Some(l)), stack, c.transfer));
    var o2 := Follow(o1, RunExternal(o1.s.(loan := Some(l)), stack, c.transfer));
    ExternalSound(b, o2.s, stack, c.callback);
    FollowSound(b, stack, o2, RunExternal(o2.s, stack, c.callback));
    var o3 := Follow(o2, RunExternal(o2.s, stack, c.callback));
    ExternalSound(b, o3.s, stack, c.balanceAfter);
    FollowSound(b, stack, o3, RunExternal(o3.s, stack, c.balanceAfter));
    FlashLoanEnds(s, stack, c, value, o1, o2, o3, Follow(o3, RunExternal(o3.s, stack, c.balanceAfter)));
  }

  /** Whichever way a flash loan ends, its storage and trace are those after one of its external calls. */
  lemma FlashLoanEnds(s: Storage, stack: seq<Function>, c: Call, value: int,
                      o1: Outcome, o2: Outcome, o3: Outcome, o4: Outcome)
    requires c.FlashLoanCall?
    requires o1 == RunExternal(s, stack, c.balanceBefore)
    requires var l := LoanRecord(c.receiver, c.asset, c.amount, c.fee, c.env.now);
      o2 == Follow(o1, RunExternal(o1.s.(loan := Some(l)), stack, c.transfer))
    requires o3 == Follow(o2, RunExternal(o2.s, stack, c.callback))
    requires o4 == Follow(o3, RunExternal(o3.s, stack, c.balanceAfter))
    ensures var o := Interact(s, stack, c, value);
      || (o.s == o1.s && o.trace == o1.trace) || (o.s == o2.s && o.trace == o2.trace)
      || (o.s == o3.s && o.trace == o3.trace) || (o.s == o4.s && o.trace == o4.trace)
    ensures Interact(s, stack, c, value).result.Ok? ==>
      && !o1.result.Trapped? && !o2.result.Trapped? && !o3.result.Trapped? && !o4.result.Trapped?
      && c.callbackResult && c.finalBalance >= c.initialBalance + c.fee
    ensures Interact(s, stack, c, value).result != Err(Reentrancy)
  {
  }

  lemma {:induction false} ExternalSound(b: Storage, s: Storage, stack: seq<Function>, e: External)
    requires Consistent(b, s) && GuardsFollow(s, stack) && NoRepeats(stack)
    ensures AllSound(b, stack, RunExternal(s, stack, e))
    decreases e, 0
  {
    CallsSound(b, s, stack, e.calls);
  }

  /**
   For every list of call trees made from a frame stack: at every external call and every return
   inside them, guards are Entered exactly for the functions on the stack, no function is on it
   twice, the total equals the sum of all collateral amounts, never falls and stays within the cap,
   and debts and balances are never negative.
   */
  lemma {:induction false} CallsSound(b: Storage, s: Storage, stack: seq<Function>, calls: Calls)
    requires Consistent(b, s) && GuardsFollow(s, stack) && NoRepeats(stack)
    ensures AllSound(b, stack, RunCalls(s, stack, calls))
    decreases calls, 0
  {
    match calls
    case NoCalls =>
    case Then(c, undo, rest) =>
      ExecSound(b, s, stack, c);
      var o := Exec(s, stack, c);
      CallsSound(b, if o.result.Err? && undo then s else o.s, stack, rest);
  }

  /**
   A call is rejected as re-entrant exactly when a frame of the same function is on the stack; the
   rejection changes nothing, so the outer frame's guard stays set.  Any other function may be
   entered from an external call.
   */
  lemma ReentryExactly(b: Storage, s: Storage, stack: seq<Function>, c: Call)
    requires Consistent(b, s) && GuardsFollow(s, stack) && NoRepeats(stack)
    ensures Exec(s, stack, c).result == Err(Reentrancy) <==> c.Key() in stack
    ensures c.Key() in stack ==> Exec(s, stack, c).s == s && Entered(s, c.Key())
  {
    if c.Key() !in stack && c.FlashLoanCall? {
      FlashLoanUnfolds(SetGuard(s, FlashLoan, 1), stack + [FlashLoan], c);
    }
  }

  /** What a flash loan's answer says about its external calls. */
  lemma FlashLoanUnfolds(s: Storage, stack: seq<Function>, c: Call)
    requires c.FlashLoanCall?
    ensures Interact(s, stack, c, 0).result != Err(Reentrancy)
    ensures Interact(s, stack, c, 0).result.Ok? ==>
      && !c.balanceBefore.traps && !c.transfer.traps && !c.callback.traps && !c.balanceAfter.traps
      && c.callbackResult && c.finalBalance >= c.initialBalance + c.fee
  {
    var o1 := RunExternal(s, stack, c.balanceBefore);
    var l := LoanRecord(c.receiver, c.asset, c.amount, c.fee, c.env.now);
    var o2 := Follow(o1, RunExternal(o1.s.(loan := Some(l)), stack, c.transfer));
    var o3 := Follow(o2, RunExternal(o2.s, stack, c.callback));
    var o4 := Follow(o3, RunExternal(o3.s, stack, c.balanceAfter));
    FlashLoanEnds(s, stack, c, 0, o1, o2, o3, o4);
  }

  // ---------------------------------------------------------------------------
  // The contract from its start
  // ---------------------------------------------------------------------------

  ghost predicate Fresh(b: Storage) {
    && b.guards == map[] && b.total == SumAmounts(b.collateral)
    && (forall u :: Debt(b, u) >= 0) && (forall u :: Balance(b, u) >= 0)
  }

  /**
   Every sequence of outside calls, each a tree of nested calls, keeps the storage consistent at every
   external call and return, leaves every guard free, and moves every user's ledgers by exactly the
   amounts of the successful calls that were kept.
   */
  lemma EveryRunSound(b: Storage, calls: Calls, u: User)
    requires Fresh(b)
    ensures var o := RunCalls(b, [], calls);
      && Consistent(b, o.s)
      && (forall f :: !Entered(o.s, f))
      && (forall x | x in o.trace :: Sound(b, x))
      && MovedBy(b, o.s, CallsMoves(b, [], calls, u), u)
  {
    CallsSound(b, b, [], calls);
    CallsMatch(b, [], calls, u);
  }

  /**
   At every external call and return that any run reaches, whichever call is made from there is
   refused as re-entrant if and only if its function has a frame on the stack; the refusal leaves
   the storage, and so the outer frame's guard, as it was.
   */
  lemma ReentryInEveryRun(b: Storage, calls: Calls, x: Observation, c: Call)
    requires Fresh(b) && x in RunCalls(b, [], calls).trace
    ensures Exec(x.storage, x.stack, c).result == Err(Reentrancy) <==> c.Key() in x.stack
    ensures c.Key() in x.stack ==> Exec(x.storage, x.stack, c).s == x.storage && Entered(x.storage, c.Key())
  {
    CallsSound(b, b, [], calls);
    assert Sound(b, x);
    ReentryExactly(b, x.storage, x.stack, c);
  }

  /**
   No entry point ever credits a withdrawal balance: some sequence of calls makes a withdrawal for
   `u` if and only if u's balance was positive at the start.
   */
  lemma WithdrawnExactly(b: Storage, u: User)
    requires Fresh(b)
    ensures (exists calls :: CallsMoves(b, [], calls, u).withdrawn > 0) <==> Balance(b, u) > 0
  {
    if Balance(b, u) > 0 {
      var calls := WithdrawOne(u);
      OneIsWithdrawn(b, u);
      assert CallsMoves(b, [], calls, u).withdrawn > 0;
    } else {
      forall calls
        ensures CallsMoves(b, [], calls, u).withdrawn <= 0
      {
        EveryRunSound(b, calls, u);
      }
    }
  }

  function WithdrawOne(u: User): Calls {
    Then(WithdrawCall(Env(true, false, 0), u, "", 1, External(NoCalls, false)), false, NoCalls)
  }

  lemma OneIsWithdrawn(b: Storage, u: User)
    requires Fresh(b) && Balance(b, u) > 0
    ensures CallsMoves(b, [], WithdrawOne(u), u).withdrawn == 1
  {
    var c := WithdrawOne(u).call;
    WithdrawOneSucceeds(b, u);
    var s1 := SetGuard(b, Withdraw, 1);
    assert CallsMoves(Effects(s1, c).s, [] + [Withdraw], NoCalls, u) == Nothing;
    assert NestedMoves(Effects(s1, c).s, [] + [Withdraw], c, u) == Nothing;
    assert CallMoves(b, [], c, u) == Answered(c, Exec(b, [], c).result, u);
    assert CallsMoves(Exec(b, [], c).s, [], NoCalls, u) == Nothing;
  }

  lemma WithdrawOneSucceeds(b: Storage, u: User)
    requires Fresh(b) && Balance(b, u) > 0
    ensures var c := WithdrawOne(u).call; var s1 := SetGuard(b, Withdraw, 1);
      !Entered(b, Withdraw) && Effects(s1, c).Go? && Exec(b, [], c).result.Ok?
  {
    var c, s1 := WithdrawOne(u).call, SetGuard(b, Withdraw, 1);
    assert Balance(s1, u) == Balance(b, u);
    var s2 := Effects(s1, c).s;
    assert RunCalls(s2, [] + [Withdraw], NoCalls).result.Ok?;
    assert RunExternal(s2, [] + [Withdraw], External(NoCalls, false)).result.Ok?;
    assert Interact(s2, [] + [Withdraw], c, Effects(s1, c).value).result.Ok?;
  }
}
