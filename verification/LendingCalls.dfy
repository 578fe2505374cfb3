/**
 The re-entrancy guarded entry points of the lending contract (contract/src/deposit.rs,
 withdraw.rs, borrow.rs, flash_loan.rs and reentrancy_guard.rs).

 Every token or receiver call hands control to code that may call any entry point again.  A call
 is therefore a finite tree: it carries, for each of its external calls, the list of calls made
 back into the contract from there.  The environment's answers (authorisation, pauses, clock,
 token balances, traps) are part of the tree as well.
 */
module LendingCalls {
  import opened Options

  type User = string
  type Asset = string

  const I128_MAX: int := 0x7fff_ffff_ffff_ffff_ffff_ffff_ffff_ffff
  const I128_MIN: int := -I128_MAX - 1

  type I128 = x: int | I128_MIN <= x <= I128_MAX

  /** One guard key per guarded function. */
  datatype Function = Deposit | Withdraw | Borrow | Repay | FlashLoan

  datatype Position = Position(amount: I128, asset: Asset, lastDepositTime: nat)

  datatype LoanRecord = LoanRecord(receiver: User, asset: Asset, amount: I128, fee: I128, timestamp: nat)

  datatype Storage = Storage(
    guards: map<Function, nat>,
    collateral: map<User, Position>,
    total: I128,
    cap: I128,
    min: I128,
    balances: map<User, I128>,
    debts: map<User, I128>,
    loan: Option<LoanRecord>)

  datatype Error =
    | Reentrancy | Paused | InvalidAmount | Overflow | ExceedsCap | InsufficientBalance
    | CallbackFailed | InsufficientRepayment

  datatype Result = Ok(value: int) | Err(error: Error) | Trapped

  /** What the call finds outside the contract: does the user authorise it, is it paused, what is the time. */
  datatype Env = Env(authorized: bool, paused: bool, now: nat)

  /** The calls made back from one external call; `undo` says that the host discards the effects of a failing one. */
  datatype Calls = NoCalls | Then(call: Call, undo: bool, rest: Calls)

  datatype External = External(calls: Calls, traps: bool)

  datatype Call =
    | DepositCall(env: Env, user: User, asset: Asset, amount: I128, transfer: External)
    | WithdrawCall(env: Env, user: User, asset: Asset, amount: I128, transfer: External)
    | BorrowCall(env: Env, user: User, asset: Asset, amount: I128, collateralAmount: I128, transfer: External)
    | RepayCall(env: Env, user: User, asset: Asset, amount: I128, transfer: External)
    | FlashLoanCall(env: Env, receiver: User, asset: Asset, amount: I128, fee: I128,
                    balanceBefore: External, initialBalance: I128, transfer: External,
                    callback: External, callbackResult: bool, balanceAfter: External, finalBalance: I128)
  {
    function Key(): Function {
      match this
      case DepositCall(_, _, _, _, _) => Deposit
      case WithdrawCall(_, _, _, _, _) => Withdraw
      case BorrowCall(_, _, _, _, _, _) => Borrow
      case RepayCall(_, _, _, _, _) => Repay
      case FlashLoanCall(_, _, _, _, _, _, _, _, _, _, _, _) => FlashLoan
    }
  }

  // ---------------------------------------------------------------------------
  // Storage access
  // ---------------------------------------------------------------------------

  predicate Entered(s: Storage, f: Function) {
    f in s.guards && s.guards[f] == 1
  }

  function SetGuard(s: Storage, f: Function, state: nat): Storage {
    s.(guards := s.guards[f := state])
  }

  function Amount(s: Storage, u: User): I128 { if u in s.collateral then s.collateral[u].amount else 0 }

  function Balance(s: Storage, u: User): I128 { if u in s.balances then s.balances[u] else 0 }

  function Debt(s: Storage, u: User): I128 { if u in s.debts then s.debts[u] else 0 }

  predicate Fits(x: int) { I128_MIN <= x <= I128_MAX }

  // ---------------------------------------------------------------------------
  // Checks and effects, up to the first external call after them
  // ---------------------------------------------------------------------------

  datatype Checked = Go(s: Storage, value: int) | Refuse(error: Error) | Trap

  function DepositEffects(s: Storage, env: Env, user: User, asset: Asset, amount: I128): Checked {
    if !env.authorized then Trap
    else if env.paused then Refuse(Paused)
    else if amount <= 0 then Refuse(InvalidAmount)
    else if amount < s.min then Refuse(InvalidAmount)
    else if !Fits(s.total + amount) then Refuse(Overflow)
    else if s.total + amount > s.cap then Refuse(ExceedsCap)
    else if !Fits(Amount(s, user) + amount) then Refuse(Overflow)
    else
      var position := Position(Amount(s, user) + amount, asset, env.now);
      Go(s.(collateral := s.collateral[user := position], total := s.total + amount), position.amount)
  }

  function WithdrawEffects(s: Storage, env: Env, user: User, amount: I128): Checked {
    if !env.authorized then Trap
    else if env.paused then Refuse(Paused)
    else if amount <= 0 then Refuse(InvalidAmount)
    else if Balance(s, user) < amount then Refuse(InsufficientBalance)
    else if !Fits(Balance(s, user) - amount) then Refuse(Overflow)
    else
      Go(s.(balances := s.balances[user := Balance(s, user) - amount]), Balance(s, user) - amount)
  }

  function BorrowEffects(s: Storage, env: Env, user: User, amount: I128, collateralAmount: I128): Checked {
    if !env.authorized then Trap
    else if amount <= 0 || collateralAmount <= 0 then Refuse(InvalidAmount)
    else if !Fits(Debt(s, user) + amount) then Refuse(Overflow)
    else Go(s.(debts := s.debts[user := Debt(s, user) + amount]), 0)
  }

  function RepayEffects(s: Storage, env: Env, user: User, amount: I128): Checked {
    if !env.authorized then Trap
    else if amount <= 0 then Refuse(InvalidAmount)
    else if Debt(s, user) < amount then Refuse(InvalidAmount)
    else if !Fits(Debt(s, user) - amount) then Refuse(Overflow)
    else Go(s.(debts := s.debts[user := Debt(s, user) - amount]), 0)
  }

  function FlashLoanChecks(s: Storage, env: Env, amount: I128): Checked {
    if env.paused then Refuse(Paused)
    else if amount <= 0 then Refuse(InvalidAmount)
    else Go(s, 0)
  }

  function Effects(s: Storage, c: Call): Checked {
    match c
    case DepositCall(env, user, asset, amount, _) => DepositEffects(s, env, user, asset, amount)
    case WithdrawCall(env, user, _, amount, _) => WithdrawEffects(s, env, user, amount)
    case BorrowCall(env, user, _, amount, collateralAmount, _) => BorrowEffects(s, env, user, amount, collateralAmount)
    case RepayCall(env, user, _, amount, _) => RepayEffects(s, env, user, amount)
    case FlashLoanCall(env, _, _, amount, _, _, _, _, _, _, _, _) => FlashLoanChecks(s, env, amount)
  }

  // ---------------------------------------------------------------------------
  // Executing a call tree
  // ---------------------------------------------------------------------------

  /** The storage as seen at an external call or at a return, with the functions whose frames are on the stack. */
  datatype Observation = Observation(stack: seq<Function>, storage: Storage)

  datatype Outcome = Outcome(s: Storage, result: Result, trace: seq<Observation>)

  function Exec(s: Storage, stack: seq<Function>, c: Call): Outcome
    decreases c, 1
  {
    if Entered(s, c.Key()) then
      Outcome(s, Err(Reentrancy), [Observation(stack, s)])
    else
      var s1 := SetGuard(s, c.Key(), 1);
      match Effects(s1, c)
      case Trap => Outcome(s, Trapped, [Observation(stack, s)])
      case Refuse(e) => Return(s, stack, c.Key(), Outcome(s1, Err(e), []))
      case Go(s2, value) => Return(s, stack, c.Key(), Interact(s2, stack + [c.Key()], c, value))
  }

  /** Leaving a frame: the guard is dropped, or, after a trap, the host puts back the storage of the entry. */
  function Return(entry: Storage, stack: seq<Function>, f: Function, o: Outcome): Outcome {
    var s := if o.result.Trapped? then entry else SetGuard(o.s, f, 0);
    Outcome(s, o.result, o.trace + [Observation(stack, s)])
  }

  /** The external calls of a frame whose checks have passed. */
  function Interact(s: Storage, stack: seq<Function>, c: Call, value: int): Outcome
    decreases c, 0
  {
    match c
    case DepositCall(_, _, _, _, e) => Single(RunExternal(s, stack, e), value)
    case WithdrawCall(_, _, _, _, e) => Single(RunExternal(s, stack, e), value)
    case BorrowCall(_, _, _, _, _, e) => Single(RunExternal(s, stack, e), value)
    case RepayCall(_, _, _, _, e) => Single(RunExternal(s, stack, e), value)
    case FlashLoanCall(env, receiver, asset, amount, fee, before, initial, transfer, callback, agreed, after, final) =>
      var o1 := RunExternal(s, stack, before);
      if o1.result.Trapped? then o1 else
      var l := LoanRecord(receiver, asset, amount, fee, env.now);
      var o2 := Follow(o1, RunExternal(o1.s.(loan := Some(l)), stack, transfer));
      if o2.result.Trapped? then o2 else
      var o3 := Follow(o2, RunExternal(o2.s, stack, callback));
      if o3.result.Trapped? then o3 else
      if !agreed then Outcome(o3.s, Err(CallbackFailed), o3.trace) else
      var o4 := Follow(o3, RunExternal(o3.s, stack, after));
      if o4.result.Trapped? then o4 else
      if !Fits(initial + fee) then Outcome(o4.s, Trapped, o4.trace) else
      if final < initial + fee then Outcome(o4.s, Err(InsufficientRepayment), o4.trace) else
      Outcome(o4.s, Ok(0), o4.trace)
  }

  function Single(o: Outcome, value: int): Outcome {
    if o.result.Trapped? then o else Outcome(o.s, Ok(value), o.trace)
  }

  function Follow(a: Outcome, b: Outcome): Outcome {
    Outcome(b.s, b.result, a.trace + b.trace)
  }

  function RunExternal(s: Storage, stack: seq<Function>, e: External): Outcome
    decreases e, 0
  {
    var o := RunCalls(s, stack, e.calls);
    Outcome(o.s, if e.traps then Trapped else Ok(0), [Observation(stack, s)] + o.trace)
  }

  function RunCalls(s: Storage, stack: seq<Function>, calls: Calls): Outcome
    decreases calls, 0
  {
    match calls
    case NoCalls => Outcome(s, Ok(0), [])
    case Then(c, undo, rest) =>
      var o := Exec(s, stack, c);
      Follow(o, RunCalls(if o.result.Err? && undo then s else o.s, stack, rest))
  }

  // ---------------------------------------------------------------------------
  // The contract
  // ---------------------------------------------------------------------------

  class LendingContract {
    var storage: Storage

    constructor (s: Storage)
      ensures storage == s
    {
      storage := s;
    }

    /** NonReentrant::new */
    method EnterGuard(key: Function) returns (ok: bool)
      modifies this
      ensures ok == !Entered(old(storage), key)
      ensures storage == if ok then SetGuard(old(storage), key, 1) else old(storage)
    {
      if Entered(storage, key) {
        return false;
      }
      storage := SetGuard(storage, key, 1);
      return true;
    }

    /** Drop for NonReentrant */
    method DropGuard(key: Function)
      modifies this
      ensures storage == SetGuard(old(storage), key, 0)
    {
      storage := SetGuard(storage, key, 0);
    }

    method Call(c: Call, ghost stack: seq<Function>) returns (result: Result, ghost trace: seq<Observation>)
      modifies this
      ensures Outcome(storage, result, trace) == Exec(old(storage), stack, c)
      decreases c, 1
    {
      var entry := storage;
      var ok := EnterGuard(c.Key());
      if !ok {
        return Err(Reentrancy), [Observation(stack, storage)];
      }
      match Effects(storage, c) {
        case Trap =>
          storage := entry;
          return Trapped, [Observation(stack, storage)];
        case Refuse(e) =>
          result, trace := Err(e), [];
        case Go(s, value) =>
          storage := s;
          result, trace := DoInteractions(c, value, stack + [c.Key()]);
      }
      if result.Trapped? {
        storage := entry;
      } else {
        DropGuard(c.Key());
      }
      trace := trace + [Observation(stack, storage)];
    }

    method DoInteractions(c: Call, value: int, ghost stack: seq<Function>)
      returns (result: Result, ghost trace: seq<Observation>)
      modifies this
      ensures Outcome(storage, result, trace) == Interact(old(storage), stack, c, value)
      decreases c, 0
    {
      if !c.FlashLoanCall? {
        result, trace := DoExternal(c.transfer, stack);
        if result.Ok? {
          result := Ok(value);
        }
        return;
      }
      ghost var t: seq<Observation>;
      result, trace := DoExternal(c.balanceBefore, stack);
      if result.Trapped? { return; }
      storage := storage.(loan := Some(LoanRecord(c.receiver, c.asset, c.amount, c.fee, c.env.now)));
      result, t := DoExternal(c.transfer, stack);
      trace := trace + t;
      if result.Trapped? { return; }
      result, t := DoExternal(c.callback, stack);
      trace := trace + t;
      if result.Trapped? { return; }
      if !c.callbackResult {
        return Err(CallbackFailed), trace;
      }
      result, t := DoExternal(c.balanceAfter, stack);
      trace := trace + t;
      if result.Trapped? { return; }
      if !Fits(c.initialBalance + c.fee) {
        return Trapped, trace;
      }
      if c.finalBalance < c.initialBalance + c.fee {
        return Err(InsufficientRepayment), trace;
      }
      return Ok(0), trace;
    }

    method DoExternal(e: External, ghost stack: seq<Function>) returns (result: Result, ghost trace: seq<Observation>)
      modifies this
      ensures Outcome(storage, result, trace) == RunExternal(old(storage), stack, e)
      decreases e, 0
    {
      ghost var here := Observation(stack, storage);
      trace := DoCalls(e.calls, stack);
      trace := [here] + trace;
      result := if e.traps then Trapped else Ok(0);
    }

    method DoCalls(calls: Calls, ghost stack: seq<Function>) returns (ghost trace: seq<Observation>)
      modifies this
      ensures storage == RunCalls(old(storage), stack, calls).s
      ensures trace == RunCalls(old(storage), stack, calls).trace
      decreases calls, 0
    {
      match calls
      case NoCalls =>
        trace := [];
      case Then(c, undo, rest) =>
        var entry := storage;
        var r, t := Call(c, stack);
        if r.Err? && undo {
          storage := entry;
        }
        ghost var t' := DoCalls(rest, stack);
        trace := t + t';
    }
  }
}
