/**
 When the entry points of the lending contract succeed, what they return and what they leave behind
 (contract/src/deposit.rs, withdraw.rs, borrow.rs, flash_loan.rs), for every tree of nested calls.
 */
module LendingAnswers {
  import opened LendingCalls
  import opened LendingLedgers
  import opened Options

  // ---------------------------------------------------------------------------
  // What a guard protects
  // ---------------------------------------------------------------------------

  /** What only calls of function `f` may change is the same in both storages. */
  predicate Untouched(f: Function, s: Storage, s': Storage) {
    match f
    case Deposit => s'.collateral == s.collateral && s'.total == s.total
    case Withdraw => s'.balances == s.balances
    case FlashLoan => s'.loan == s.loan
    case Borrow => true
    case Repay => true
  }

  lemma EffectsFreeze(f: Function, s: Storage, c: Call)
    requires Entered(s, f) && c.Key() != f && Effects(SetGuard(s, c.Key(), 1), c).Go?
    ensures var s' := Effects(SetGuard(s, c.Key(), 1), c).s; Entered(s', f) && Untouched(f, s, s')
  {
  }

  lemma {:induction false} ExecFreezes(f: Function, s: Storage, stack: seq<Function>, c: Call)
    requires Entered(s, f)
    ensures var s' := Exec(s, stack, c).s; Entered(s', f) && Untouched(f, s, s')
    decreases c, 1
  {
    if !Entered(s, c.Key()) {
      var s1 := SetGuard(s, c.Key(), 1);
      match Effects(s1, c)
      case Trap =>
      case Refuse(_) =>
      case Go(s2, value) =>
        EffectsFreeze(f, s, c);
        InteractFreezes(f, s2, stack + [c.Key()], c, value);
    }
  }

  lemma {:induction false} InteractFreezes(f: Function, s: Storage, stack: seq<Function>, c: Call, value: int)
    requires Entered(s, f) && (c.FlashLoanCall? ==> f != FlashLoan)
    ensures var s' := Interact(s, stack, c, value).s; Entered(s', f) && Untouched(f, s, s')
    decreases c, 0
  {
    if c.FlashLoanCall? {
      CallsFreeze(f, s, stack, c.balanceBefore.calls);
      var l := LoanRecord(c.receiver, c.asset, c.amount, c.fee, c.env.now);
      var s1 := RunExternal(s, stack, c.balanceBefore).s.(loan := Some(l));
      CallsFreeze(f, s1, stack, c.transfer.calls);
      var s2 := RunExternal(s1, stack, c.transfer).s;
      CallsFreeze(f, s2, stack, c.callback.calls);
      CallsFreeze(f, RunExternal(s2, stack, c.callback).s, stack, c.balanceAfter.calls);
    } else {
      CallsFreeze(f, s, stack, c.transfer.calls);
    }
  }

  /** While a guard is Entered, whatever is called: it stays so, and what it protects stays as it is. */
  lemma {:induction false} CallsFreeze(f: Function, s: Storage, stack: seq<Function>, calls: Calls)
    requires Entered(s, f)
    ensures var s' := RunCalls(s, stack, calls).s; Entered(s', f) && Untouched(f, s, s')
    decreases calls, 0
  {
    match calls
    case NoCalls =>
    case Then(c, undo, rest) =>
      var o := Exec(s, stack, c);
      ExecFreezes(f, s, stack, c);
      CallsFreeze(f, if o.result.Err? && undo then s else o.s, stack, rest);
  }

  // ---------------------------------------------------------------------------
  // Answers
  // ---------------------------------------------------------------------------

  /** How a call with one external call gets its answer. */
  lemma CallUnfolds(s: Storage, stack: seq<Function>, c: Call)
    requires !Entered(s, c.Key()) && !c.FlashLoanCall?
    ensures var f, o := c.Key(), Exec(s, stack, c); var s1 := SetGuard(s, f, 1);
      match Effects(s1, c)
      case Trap => o.result == Trapped && o.s == s
      case Refuse(e) => o.result == Err(e) && o.s == SetGuard(s1, f, 0)
      case Go(s2, value) =>
        && o.result == (if c.transfer.traps then Trapped else Ok(value))
        && o.s == if c.transfer.traps then s else SetGuard(RunCalls(s2, stack + [f], c.transfer.calls).s, f, 0)
  {
    var f := c.Key();
    var s1 := SetGuard(s, f, 1);
    if Effects(s1, c).Go? {
      var s2, value := Effects(s1, c).s, Effects(s1, c).value;
      var e := RunExternal(s2, stack + [f], c.transfer);
      assert Interact(s2, stack + [f], c, value) == Single(e, value);
    }
  }

  lemma DepositLeaves(s: Storage, stack: seq<Function>, c: Call)
    requires c.DepositCall? && !Entered(s, Deposit)
    ensures var o := Exec(s, stack, c);
      if o.result.Ok? then
        && Fits(Amount(s, c.user) + c.amount) && Fits(s.total + c.amount) && o.s.total == s.total + c.amount
        && o.s.collateral == s.collateral[c.user := Position(Amount(s, c.user) + c.amount, c.asset, c.env.now)]
      else Untouched(Deposit, s, o.s)
  {
    var s1 := SetGuard(s, Deposit, 1);
    CallUnfolds(s, stack, c);
    if Effects(s1, c).Go? {
      CallsFreeze(Deposit, Effects(s1, c).s, stack + [Deposit], c.transfer.calls);
    }
  }

  /**
   A deposit, with any calls made back from its transfer, at any depth: exactly when it succeeds, and
   which refusal each failing condition gets.  Success returns the user's new amount and leaves exactly
   the new position and total, since nothing nested can deposit; otherwise nobody's collateral moves.
   */
  lemma DepositAnswered(s: Storage, stack: seq<Function>, c: Call)
    requires c.DepositCall? && !Entered(s, Deposit)
    ensures var o, new_, total := Exec(s, stack, c), Amount(s, c.user) + c.amount, s.total + c.amount;
      var open, valid := c.env.authorized && !c.env.paused, c.amount > 0 && c.amount >= s.min;
      var passes := open && valid && total <= s.cap && new_ <= I128_MAX;
      && (o.result.Ok? <==> passes && !c.transfer.traps)
      && (o.result == Trapped <==> !c.env.authorized || (passes && c.transfer.traps))
      && (o.result == Err(Paused) <==> c.env.authorized && c.env.paused)
      && (o.result == Err(InvalidAmount) <==> open && !valid)
      && (o.result == Err(ExceedsCap) <==> open && valid && s.cap < total <= I128_MAX)
      && (o.result == Err(Overflow) <==>
            open && valid && (total > I128_MAX || (total <= s.cap && new_ > I128_MAX)))
      && (o.result.Ok? ==>
            && o.result.value == new_ && o.s.total == total
            && o.s.collateral == s.collateral[c.user := Position(new_, c.asset, c.env.now)])
      && (!o.result.Ok? ==> Untouched(Deposit, s, o.s))
  {
    CallUnfolds(s, stack, c);
    DepositLeaves(s, stack, c);
  }

  /** The same for a withdrawal. */
  lemma WithdrawAnswered(s: Storage, stack: seq<Function>, c: Call)
    requires c.WithdrawCall? && !Entered(s, Withdraw)
    ensures var o, left := Exec(s, stack, c), Balance(s, c.user) - c.amount;
      var open := c.env.authorized && !c.env.paused;
      var passes := open && c.amount > 0 && left >= 0;
      && (o.result.Ok? <==> passes && !c.transfer.traps)
      && (o.result == Trapped <==> !c.env.authorized || (passes && c.transfer.traps))
      && (o.result == Err(Paused) <==> c.env.authorized && c.env.paused)
      && (o.result == Err(InvalidAmount) <==> open && c.amount <= 0)
      && (o.result == Err(InsufficientBalance) <==> open && c.amount > 0 && left < 0)
      && o.result != Err(Overflow)
      && (o.result.Ok? ==> o.result.value == left && o.s.balances == s.balances[c.user := left])
      && (!o.result.Ok? ==> Untouched(Withdraw, s, o.s))
  {
    var s1 := SetGuard(s, Withdraw, 1);
    CallUnfolds(s, stack, c);
    if Effects(s1, c).Go? {
      CallsFreeze(Withdraw, Effects(s1, c).s, stack + [Withdraw], c.transfer.calls);
    }
  }

  /** A loan is given for positive amounts, without a look at the collateral; there is no pause. */
  lemma BorrowAnswered(s: Storage, stack: seq<Function>, c: Call)
    requires c.BorrowCall? && !Entered(s, Borrow)
    ensures var o, owed := Exec(s, stack, c), Debt(s, c.user) + c.amount;
      var valid := c.amount > 0 && c.collateralAmount > 0;
      var passes := c.env.authorized && valid && owed <= I128_MAX;
      && (o.result.Ok? <==> passes && !c.transfer.traps)
      && (o.result == Trapped <==> !c.env.authorized || (passes && c.transfer.traps))
      && (o.result == Err(InvalidAmount) <==> c.env.authorized && !valid)
      && (o.result == Err(Overflow) <==> c.env.authorized && valid && owed > I128_MAX)
      && (o.result.Ok? ==> o.result.value == 0)
      && (!o.result.Ok? ==> o.s.debts == s.debts)
  {
    CallUnfolds(s, stack, c);
  }

  lemma RepayAnswered(s: Storage, stack: seq<Function>, c: Call)
    requires c.RepayCall? && !Entered(s, Repay)
    ensures var o, owed := Exec(s, stack, c), Debt(s, c.user) - c.amount;
      var passes := c.env.authorized && c.amount > 0 && owed >= 0;
      && (o.result.Ok? <==> passes && !c.transfer.traps)
      && (o.result == Trapped <==> !c.env.authorized || (passes && c.transfer.traps))
      && (o.result == Err(InvalidAmount) <==> c.env.authorized && (c.amount <= 0 || owed < 0))
      && o.result != Err(Overflow)
      && (o.result.Ok? ==> o.result.value == 0)
      && (!o.result.Ok? ==> o.s.debts == s.debts)
  {
    CallUnfolds(s, stack, c);
  }

  /**
   A flash loan, with any calls made back from any of its four external calls: it needs no
   authorisation, and once it got to lending, its record is the one left behind, since nothing nested
   can take another.
   */
  lemma FlashLoanAnswered(s: Storage, stack: seq<Function>, c: Call)
    requires c.FlashLoanCall? && !Entered(s, FlashLoan)
    ensures var o, due := Exec(s, stack, c), c.initialBalance + c.fee;
      var passes := !c.env.paused && c.amount > 0;
      var lent := passes && !c.balanceBefore.traps && !c.transfer.traps && !c.callback.traps;
      var back := lent && c.callbackResult && !c.balanceAfter.traps && Fits(due);
      && (o.result.Ok? <==> back && c.finalBalance >= due)
      && (o.result == Err(Paused) <==> c.env.paused)
      && (o.result == Err(InvalidAmount) <==> !c.env.paused && c.amount <= 0)
      && (o.result == Err(CallbackFailed) <==> lent && !c.callbackResult)
      && (o.result == Err(InsufficientRepayment) <==> back && c.finalBalance < due)
      && (o.result == Trapped <==> passes && !back && !(lent && !c.callbackResult))
      && (o.result.Ok? ==> o.result.value == 0)
      && o.s.loan == if o.result.Trapped? || !lent then s.loan
                     else Some(LoanRecord(c.receiver, c.asset, c.amount, c.fee, c.env.now))
  {
    var s1 := SetGuard(s, FlashLoan, 1);
    if Effects(s1, c).Go? { FlashLoanLeaves(s1, stack + [FlashLoan], c); }
  }

  lemma FlashLoanLeaves(s: Storage, stack: seq<Function>, c: Call)
    requires c.FlashLoanCall? && Entered(s, FlashLoan)
    ensures var o, due := Interact(s, stack, c, 0), c.initialBalance + c.fee;
      var lent := !c.balanceBefore.traps && !c.transfer.traps && !c.callback.traps;
      && o.result == (if !lent then Trapped
                      else if !c.callbackResult then Err(CallbackFailed)
                      else if c.balanceAfter.traps || !Fits(due) then Trapped
                      else if c.finalBalance < due then Err(InsufficientRepayment) else Ok(0))
      && (lent ==> o.s.loan == Some(LoanRecord(c.receiver, c.asset, c.amount, c.fee, c.env.now)))
  {
    CallsFreeze(FlashLoan, s, stack, c.balanceBefore.calls);
    var l := LoanRecord(c.receiver, c.asset, c.amount, c.fee, c.env.now);
    var s1 := RunExternal(s, stack, c.balanceBefore).s.(loan := Some(l));
    assert Entered(s1, FlashLoan);
    CallsFreeze(FlashLoan, s1, stack, c.transfer.calls);
    var s2 := RunExternal(s1, stack, c.transfer).s;
    CallsFreeze(FlashLoan, s2, stack, c.callback.calls);
    CallsFreeze(FlashLoan, RunExternal(s2, stack, c.callback).s, stack, c.balanceAfter.calls);
  }

  // ---------------------------------------------------------------------------
  // Effects before interactions
  // ---------------------------------------------------------------------------

  /**
   The first thing that code outside the contract can see of a successful deposit, withdrawal, borrow or
   repayment has the guard set and the ledgers moved already.
   */
  lemma EffectsComeFirst(s: Storage, stack: seq<Function>, c: Call, u: User)
    requires !c.FlashLoanCall? && Exec(s, stack, c).result.Ok?
    ensures var o := Exec(s, stack, c);
      && o.trace != [] && o.trace[0].stack == stack + [c.Key()]
      && Entered(o.trace[0].storage, c.Key()) && MovedBy(s, o.trace[0].storage, Answered(c, o.result, u), u)
  {
    var s1 := SetGuard(s, c.Key(), 1);
    CallUnfolds(s, stack, c);
    var s2, value := Effects(s1, c).s, Effects(s1, c).value;
    EffectsMove(s1, c, u);
    EffectsIgnoreGuards(s1, s1.guards, c);
    assert RunExternal(s2, stack + [c.Key()], c.transfer).trace[0] == Observation(stack + [c.Key()], s2);
    assert Interact(s2, stack + [c.Key()], c, value).trace[0] == Observation(stack + [c.Key()], s2);
  }

  /** A flash loan's transfer finds the loan recorded already. */
  lemma LoanRecordedFirst(s: Storage, stack: seq<Function>, c: Call)
    requires c.FlashLoanCall? && !c.balanceBefore.traps
    ensures var o, k := Interact(s, stack, c, 0), |RunExternal(s, stack, c.balanceBefore).trace|;
      && k < |o.trace|
      && o.trace[k].storage.loan == Some(LoanRecord(c.receiver, c.asset, c.amount, c.fee, c.env.now))
  {
  }

  // ---------------------------------------------------------------------------
  // Calls that must not matter
  // ---------------------------------------------------------------------------

  /** The user did not authorise the call, or its function is paused: flash loans ask for no authorisation,
      borrowing and repaying cannot be paused. */
  predicate Unwelcome(c: Call) {
    match c
    case DepositCall(env, _, _, _, _) => !env.authorized || env.paused
    case WithdrawCall(env, _, _, _, _) => !env.authorized || env.paused
    case BorrowCall(env, _, _, _, _, _) => !env.authorized
    case RepayCall(env, _, _, _, _) => !env.authorized
    case FlashLoanCall(env, _, _, _, _, _, _, _, _, _, _, _) => env.paused
  }

  /** The calls without the unwelcome ones, at every depth. */
  function Pruned(calls: Calls): Calls {
    match calls
    case NoCalls => NoCalls
    case Then(c, undo, rest) => if Unwelcome(c) then Pruned(rest) else Then(PrunedCall(c), undo, Pruned(rest))
  }

  function PrunedExternal(e: External): External { External(Pruned(e.calls), e.traps) }

  function PrunedCall(c: Call): Call {
    match c
    case DepositCall(env, user, asset, amount, e) => DepositCall(env, user, asset, amount, PrunedExternal(e))
    case WithdrawCall(env, user, asset, amount, e) => WithdrawCall(env, user, asset, amount, PrunedExternal(e))
    case BorrowCall(env, user, asset, amount, collateral, e) =>
      BorrowCall(env, user, asset, amount, collateral, PrunedExternal(e))
    case RepayCall(env, user, asset, amount, e) => RepayCall(env, user, asset, amount, PrunedExternal(e))
    case FlashLoanCall(env, receiver, asset, amount, fee, before, initial, transfer, callback, agreed, after, final) =>
      FlashLoanCall(env, receiver, asset, amount, fee, PrunedExternal(before), initial, PrunedExternal(transfer),
                    PrunedExternal(callback), agreed, PrunedExternal(after), final)
  }

  /** Equal but for how the guards that are not Entered are written down. */
  ghost predicate Same(s: Storage, t: Storage) {
    s == t.(guards := s.guards) && forall f :: Entered(s, f) == Entered(t, f)
  }

  ghost predicate SameOutcome(a: Outcome, b: Outcome) {
    a.result == b.result && Same(a.s, b.s)
  }

  lemma UnwelcomeDoesNothing(s: Storage, stack: seq<Function>, c: Call)
    requires Unwelcome(c)
    ensures Same(Exec(s, stack, c).s, s)
  {
  }

  lemma GuardKeepsSame(s: Storage, t: Storage, f: Function, state: nat)
    requires Same(s, t)
    ensures Same(SetGuard(s, f, state), SetGuard(t, f, state))
  {
    var s', t' := SetGuard(s, f, state), SetGuard(t, f, state);
    forall g
      ensures Entered(s', g) == Entered(t', g)
    {
      assert Entered(s', g) == (if g == f then state == 1 else Entered(s, g));
      assert Entered(t', g) == (if g == f then state == 1 else Entered(t, g));
    }
  }

  /** Checks and effects look at no guard. */
  lemma EffectsIgnoreGuards(s: Storage, g: map<Function, nat>, c: Call)
    ensures Effects(s.(guards := g), PrunedCall(c)) ==
      match Effects(s, c)
      case Go(s', value) => Go(s'.(guards := g), value)
      case Refuse(e) => Refuse(e)
      case Trap => Trap
    ensures Effects(s, c).Go? ==> Effects(s, c).s.guards == s.guards
  {
  }

  lemma EffectsSame(s: Storage, t: Storage, c: Call)
    requires Same(s, t)
    ensures match Effects(s, c)
      case Trap => Effects(t, PrunedCall(c)) == Trap
      case Refuse(e) => Effects(t, PrunedCall(c)) == Refuse(e)
      case Go(s', value) =>
        var d := Effects(t, PrunedCall(c)); d.Go? && d.value == value && Same(s', d.s)
  {
    EffectsIgnoreGuards(s, t.guards, c);
    assert s.(guards := t.guards) == t;
    if Effects(s, c).Go? {
      var s' := Effects(s, c).s;
      assert forall f :: Entered(s', f) == Entered(s, f) && Entered(s'.(guards := t.guards), f) == Entered(t, f);
    }
  }

  lemma {:induction false} ExecSame(s: Storage, t: Storage, stack: seq<Function>, c: Call)
    requires Same(s, t)
    ensures SameOutcome(Exec(s, stack, c), Exec(t, stack, PrunedCall(c)))
    decreases c, 1
  {
    var f, d := c.Key(), PrunedCall(c);
    assert d.Key() == f;
    if !Entered(s, f) {
      var s1, t1 := SetGuard(s, f, 1), SetGuard(t, f, 1);
      GuardKeepsSame(s, t, f, 1);
      EffectsSame(s1, t1, c);
      if Effects(s1, c).Go? {
        var s2, t2, value := Effects(s1, c).s, Effects(t1, d).s, Effects(s1, c).value;
        InteractSame(s2, t2, stack + [f], c, value);
        ReturnSame(s, t, stack, f, Interact(s2, stack + [f], c, value), Interact(t2, stack + [f], d, value));
      } else if Effects(s1, c).Refuse? {
        var e := Effects(s1, c).error;
        ReturnSame(s, t, stack, f, Outcome(s1, Err(e), []), Outcome(t1, Err(e), []));
      }
    }
  }

  lemma ReturnSame(s: Storage, t: Storage, stack: seq<Function>, f: Function, a: Outcome, b: Outcome)
    requires Same(s, t) && SameOutcome(a, b)
    ensures SameOutcome(Return(s, stack, f, a), Return(t, stack, f, b))
  {
    GuardKeepsSame(a.s, b.s, f, 0);
  }

  lemma {:induction false} InteractSame(s: Storage, t: Storage, stack: seq<Function>, c: Call, value: int)
    requires Same(s, t)
    ensures SameOutcome(Interact(s, stack, c, value), Interact(t, stack, PrunedCall(c), value))
    decreases c, 0
  {
    if c.FlashLoanCall? {
      ExternalSame(s, t, stack, c.balanceBefore);
      var l := LoanRecord(c.receiver, c.asset, c.amount, c.fee, c.env.now);
      var s1 := RunExternal(s, stack, c.balanceBefore).s.(loan := Some(l));
      var t1 := RunExternal(t, stack, PrunedExternal(c.balanceBefore)).s.(loan := Some(l));
      LoanKeepsSame(RunExternal(s, stack, c.balanceBefore).s,
                    RunExternal(t, stack, PrunedExternal(c.balanceBefore)).s, l);
      ExternalSame(s1, t1, stack, c.transfer);
      var s2, t2 := RunExternal(s1, stack, c.transfer).s, RunExternal(t1, stack, PrunedExternal(c.transfer)).s;
      ExternalSame(s2, t2, stack, c.callback);
      ExternalSame(RunExternal(s2, stack, c.callback).s, RunExternal(t2, stack, PrunedExternal(c.callback)).s,
                   stack, c.balanceAfter);
    } else {
      ExternalSame(s, t, stack, c.transfer);
    }
  }

  lemma LoanKeepsSame(s: Storage, t: Storage, l: LoanRecord)
    requires Same(s, t)
    ensures Same(s.(loan := Some(l)), t.(loan := Some(l)))
  {
    assert forall f :: Entered(s.(loan := Some(l)), f) == Entered(s, f);
    assert forall f :: Entered(t.(loan := Some(l)), f) == Entered(t, f);
  }

  lemma {:induction false} ExternalSame(s: Storage, t: Storage, stack: seq<Function>, e: External)
    requires Same(s, t)
    ensures SameOutcome(RunExternal(s, stack, e), RunExternal(t, stack, PrunedExternal(e)))
    decreases e, 0
  {
    PruningSame(s, t, stack, e.calls);
  }

  lemma {:induction false} PruningSame(s: Storage, t: Storage, stack: seq<Function>, calls: Calls)
    requires Same(s, t)
    ensures Same(RunCalls(s, stack, calls).s, RunCalls(t, stack, Pruned(calls)).s)
    decreases calls, 0
  {
    match calls
    case NoCalls =>
    case Then(c, undo, rest) =>
      var o := Exec(s, stack, c);
      var s' := if o.result.Err? && undo then s else o.s;
      if Unwelcome(c) {
        UnwelcomeDoesNothing(s, stack, c);
        PruningSame(s', t, stack, rest);
      } else {
        var p := Exec(t, stack, PrunedCall(c));
        ExecSame(s, t, stack, c);
        PruningSame(s', if p.result.Err? && undo then t else p.s, stack, rest);
      }
  }

  /**
   Unauthorised and paused calls do not matter, wherever in a run they are made: without them, and
   without what is nested in them, the run ends with the same ledgers, totals and loan record.
   */
  lemma UnwelcomeCallsDoNothing(s: Storage, stack: seq<Function>, calls: Calls)
    ensures var a, b := RunCalls(s, stack, calls).s, RunCalls(s, stack, Pruned(calls)).s;
      && a.collateral == b.collateral && a.total == b.total && a.balances == b.balances
      && a.debts == b.debts && a.loan == b.loan
  {
    PruningSame(s, s, stack, calls);
  }
}
