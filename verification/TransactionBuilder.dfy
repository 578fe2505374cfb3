/**
 Multi-step transactions (api/src/services/transactionBuilder.service.ts).

 `prepareStep` and `approveStep` await the network between their checks and their last writes, so
 each is two operations here, a Begin and an End, and anything may happen in between.
 */
module TransactionBuilder {
  import opened Options

  const MAX_STEPS: nat := 10
  const DEFAULT_TTL_SECONDS: int := 600

  datatype StepStatus = Pending | Approved | Rejected | Executing | StepCompleted | StepFailed | StepExpired

  datatype TxStatus = Building | PendingApproval | InExecution | Completed | Failed | Expired

  datatype Error =
    | NoSteps | TooManySteps
    | TransactionExpired | AlreadyCompleted | HasFailed
    | StepNotFound | OutOfOrder | WrongStatus | BuildFailed

  datatype Reply = Done | Error(error: Error)

  /**
   The components after the deadline are history: the steps whose preparation and whose submission is
   awaited, the steps sent to the network, whether the transaction was ever set to failed, whether
   a preparation ended on a step that had been sent already (`stale`), and whether an answer took a
   failed transaction out of its failure (`revived`).
   */
  datatype Tx = Tx(steps: seq<StepStatus>, currentStepIndex: nat, status: TxStatus, expiresAt: int,
                   preparing: seq<nat>, awaited: seq<nat>, submitted: seq<nat>,
                   everFailed: bool, stale: bool, revived: bool)

  /** The End operations name the awaited call they continue by its place among those awaited. */
  datatype Op =
    | PrepareBegin(step: nat, now: int)
    | PrepareEnd(n: nat, built: bool, now: int)  // `built`: the network service produced a transaction
    | ApproveBegin(step: nat, now: int)
    | ApproveEnd(n: nat, success: bool, now: int)
    | Reject(step: nat, now: int)
    | Look(now: int)  // getTransaction and listForUser

  // ---------------------------------------------------------------------------
  // Specification
  // ---------------------------------------------------------------------------

  function ExpireSteps(steps: seq<StepStatus>): seq<StepStatus> {
    seq(|steps|, i requires 0 <= i < |steps| =>
      if steps[i] == Pending || steps[i] == Approved then StepExpired else steps[i])
  }

  function MarkExpired(t: Tx): Tx {
    t.(status := Expired, steps := ExpireSteps(t.steps))
  }

  /** assertActive and findStep: what they refuse, if anything. */
  function Refusal(t: Tx, step: nat, now: int): Option<Error> {
    if now > t.expiresAt then Some(TransactionExpired)
    else if t.status == Completed then Some(AlreadyCompleted)
    else if t.status == Failed then Some(HasFailed)
    else if step >= |t.steps| then Some(StepNotFound)
    else None
  }

  function Refused(t: Tx, now: int): Tx {
    if now > t.expiresAt then MarkExpired(t) else t
  }

  datatype Outcome = Outcome(tx: Tx, reply: Reply)

  function DoPrepareBegin(t: Tx, i: nat, now: int): Outcome {
    match Refusal(t, i, now)
    case Some(e) => Outcome(Refused(t, now), Error(e))
    case None =>
      if i != t.currentStepIndex then Outcome(t, Error(OutOfOrder))
      else if t.steps[i] != Pending then Outcome(t, Error(WrongStatus))
      else Outcome(t.(preparing := t.preparing + [i]), Done)
  }

  function Without(s: seq<nat>, n: nat): seq<nat>
    requires n < |s|
  {
    s[..n] + s[n + 1..]
  }

  /** The writes after the await look at nothing. */
  function DoPrepareEnd(t: Tx, n: nat, built: bool): Tx {
    if n >= |t.preparing| || t.preparing[n] >= |t.steps| then t
    else
      var i, rest := t.preparing[n], Without(t.preparing, n);
      if !built then t.(preparing := rest)
      else
        t.(steps := t.steps[i := Approved], status := PendingApproval, preparing := rest,
           stale := t.stale || i in t.submitted, revived := t.revived || t.status == Failed)
  }

  function DoApproveBegin(t: Tx, i: nat, now: int): Outcome {
    match Refusal(t, i, now)
    case Some(e) => Outcome(Refused(t, now), Error(e))
    case None =>
      if t.steps[i] != Approved then Outcome(t, Error(WrongStatus))
      else Outcome(t.(steps := t.steps[i := Executing], status := InExecution,
                      awaited := t.awaited + [i], submitted := t.submitted + [i]), Done)
  }

  /** A failed answer and a thrown error end alike. */
  function DoApproveEnd(t: Tx, n: nat, success: bool): Tx {
    if n >= |t.awaited| || t.awaited[n] >= |t.steps| then t
    else
      var i, rest := t.awaited[n], Without(t.awaited, n);
      if success then
        t.(steps := t.steps[i := StepCompleted], currentStepIndex := i + 1, awaited := rest,
           status := if i + 1 >= |t.steps| then Completed else PendingApproval,
           revived := t.revived || t.status == Failed)
      else
        t.(steps := t.steps[i := StepFailed], status := Failed, awaited := rest, everFailed := true)
  }

  function DoReject(t: Tx, i: nat, now: int): Outcome {
    match Refusal(t, i, now)
    case Some(e) => Outcome(Refused(t, now), Error(e))
    case None => Outcome(t.(steps := t.steps[i := Rejected], status := Failed, everFailed := true), Done)
  }

  function DoLook(t: Tx, now: int): Tx {
    if now > t.expiresAt && t.status != Completed && t.status != Failed then MarkExpired(t) else t
  }

  function Step(t: Tx, op: Op): Tx {
    match op
    case PrepareBegin(i, now) => DoPrepareBegin(t, i, now).tx
    case PrepareEnd(n, built, now) => DoPrepareEnd(t, n, built)
    case ApproveBegin(i, now) => DoApproveBegin(t, i, now).tx
    case ApproveEnd(n, success, now) => DoApproveEnd(t, n, success)
    case Reject(i, now) => DoReject(t, i, now).tx
    case Look(now) => DoLook(t, now)
  }

  function Run(t: Tx, ops: seq<Op>): Tx {
    if ops == [] then t else Step(Run(t, ops[..|ops| - 1]), ops[|ops| - 1])
  }

  function Created(count: nat, ttl: Option<int>, now: int): Tx {
    Tx(seq(count, _ => Pending), 0, Building,
       now + (if ttl.Some? then ttl.value else DEFAULT_TTL_SECONDS) * 1000,
       [], [], [], false, false, false)
  }

  class MultiStepTransaction {
    var steps: seq<StepStatus>
    var currentStepIndex: nat
    var status: TxStatus
    const expiresAt: int
    ghost var preparing: seq<nat>
    ghost var awaited: seq<nat>
    ghost var submitted: seq<nat>
    ghost var everFailed: bool
    ghost var stale: bool
    ghost var revived: bool

    ghost function Model(): Tx
      reads this
    {
      Tx(steps, currentStepIndex, status, expiresAt, preparing, awaited, submitted, everFailed, stale, revived)
    }

    constructor (count: nat, ttl: Option<int>, now: int)
      ensures Model() == Created(count, ttl, now)
    {
      steps, currentStepIndex, status := seq(count, _ => Pending), 0, Building;
      expiresAt := now + (if ttl.Some? then ttl.value else DEFAULT_TTL_SECONDS) * 1000;
      preparing, awaited, submitted, everFailed, stale, revived := [], [], [], false, false, false;
    }

    method MarkExpiredNow()
      modifies this
      ensures Model() == MarkExpired(old(Model()))
    {
      status := Expired;
      for i := 0 to |steps|
        invariant |steps| == |old(steps)|
        invariant forall j | 0 <= j < |steps| :: steps[j] == if j < i then ExpireSteps(old(steps))[j] else old(steps)[j]
        invariant status == Expired && currentStepIndex == old(currentStepIndex)
        invariant preparing == old(preparing) && awaited == old(awaited) && submitted == old(submitted)
        invariant everFailed == old(everFailed) && stale == old(stale) && revived == old(revived)
      {
        if steps[i] == Pending || steps[i] == Approved {
          steps := steps[i := StepExpired];
        }
      }
    }

    method AssertActive(step: nat, now: int) returns (refusal: Option<Error>)
      modifies this
      ensures refusal == Refusal(old(Model()), step, now)
      ensures Model() == Refused(old(Model()), now)
    {
      if now > expiresAt {
        MarkExpiredNow();
        return Some(TransactionExpired);
      }
      if status == Completed { return Some(AlreadyCompleted); }
      if status == Failed { return Some(HasFailed); }
      if step >= |steps| { return Some(StepNotFound); }
      return None;
    }

    /** prepareStep up to its await. */
    method BeginPrepare(step: nat, now: int) returns (reply: Reply)
      modifies this
      ensures Outcome(Model(), reply) == DoPrepareBegin(old(Model()), step, now)
    {
      var refusal := AssertActive(step, now);
      if refusal.Some? { return Error(refusal.value); }
      if step != currentStepIndex { return Error(OutOfOrder); }
      if steps[step] != Pending { return Error(WrongStatus); }
      preparing := preparing + [step];
      return Done;
    }

    /** The continuation of prepareStep; `n` is the place of its step among those in preparation. */
    method EndPrepare(step: nat, built: bool, ghost n: nat) returns (reply: Reply)
      requires n < |preparing| && preparing[n] == step < |steps|
      modifies this
      ensures Model() == DoPrepareEnd(old(Model()), n, built)
      ensures reply == if built then Done else Error(BuildFailed)
    {
      preparing := Without(preparing, n);
      if !built { return Error(BuildFailed); }
      stale, revived := stale || step in submitted, revived || status == Failed;
      steps := steps[step := Approved];
      status := PendingApproval;
      return Done;
    }

    method BeginApproval(step: nat, now: int) returns (reply: Reply)
      modifies this
      ensures Outcome(Model(), reply) == DoApproveBegin(old(Model()), step, now)
    {
      var refusal := AssertActive(step, now);
      if refusal.Some? { return Error(refusal.value); }
      if steps[step] != Approved { return Error(WrongStatus); }
      steps := steps[step := Executing];
      status := InExecution;
      awaited, submitted := awaited + [step], submitted + [step];
      return Done;
    }

    /** The continuation of approveStep; `n` is the place of its step among those awaited. */
    method EndApproval(step: nat, success: bool, ghost n: nat)
      requires n < |awaited| && awaited[n] == step < |steps|
      modifies this
      ensures Model() == DoApproveEnd(old(Model()), n, success)
    {
      awaited := Without(awaited, n);
      if success {
        revived := revived || status == Failed;
        steps := steps[step := StepCompleted];
        currentStepIndex := step + 1;
        status := if currentStepIndex >= |steps| then Completed else PendingApproval;
      } else {
        steps := steps[step := StepFailed];
        status := Failed;
        everFailed := true;
      }
    }

    method RejectStep(step: nat, now: int) returns (reply: Reply)
      modifies this
      ensures Outcome(Model(), reply) == DoReject(old(Model()), step, now)
    {
      var refusal := AssertActive(step, now);
      if refusal.Some? { return Error(refusal.value); }
      steps := steps[step := Rejected];
      status := Failed;
      everFailed := true;
      return Done;
    }

    method GetTransaction(now: int)
      modifies this
      ensures Model() == DoLook(old(Model()), now)
    {
      if now > expiresAt && status != Completed && status != Failed {
        MarkExpiredNow();
      }
    }
  }

  method Create(count: nat, ttl: Option<int>, now: int) returns (tx: MultiStepTransaction?, reply: Reply)
    ensures reply == if count == 0 then Error(NoSteps) else if count > 10 then Error(TooManySteps) else Done
    ensures reply == Done ==> tx != null && fresh(tx) && tx.Model() == Created(count, ttl, now)
  {
    if count == 0 { return null, Error(NoSteps); }
    if count > MAX_STEPS { return null, Error(TooManySteps); }
    var t := new MultiStepTransaction(count, ttl, now);
    return t, Done;
  }

  // ---------------------------------------------------------------------------
  // Every run, whatever is interleaved
  // ---------------------------------------------------------------------------

  ghost predicate CountsUp(s: seq<nat>) {
    forall i | 0 <= i < |s| :: s[i] == i
  }

  /**
   Unless a preparation ended on a step that had been sent already: submissions count up from 0, at
   most one answer is awaited, and only the current step, not sent yet, can be sent next.
   */
  ghost predicate InOrder(t: Tx) {
    var n, c := |t.steps|, t.currentStepIndex;
    && c <= n
    && CountsUp(t.submitted) && c <= |t.submitted| <= c + 1 && |t.submitted| <= n
    && (|t.submitted| == c + 1 ==> t.steps[c] != Pending && t.steps[c] != Approved)
    && (t.awaited == [] || (t.awaited == [c] && |t.submitted| == c + 1))
    && (forall i | i in t.preparing :: i <= c && i < n)
    && (forall j | 0 <= j < n && t.steps[j] == Approved :: j == c)
  }

  /** What the steps around the current one look like before the deadline. */
  ghost predicate InShape(t: Tx) {
    var c := t.currentStepIndex;
    && (forall j | 0 <= j < c && j < |t.steps| :: t.steps[j] == StepCompleted || t.steps[j] == Rejected)
    && (forall j | c < j < |t.steps| :: t.steps[j] == Pending || t.steps[j] == Rejected)
    && (!t.everFailed ==> forall j | 0 <= j < |t.steps| :: t.steps[j] != Rejected)
  }

  /** A failure lasts until the deadline unless an answer ended it. */
  ghost predicate FailureLasts(t: Tx, clock: int) {
    && (t.status == Failed ==> t.everFailed)
    && (t.everFailed && !t.revived ==> t.status == Failed || clock > t.expiresAt)
  }

  ghost predicate Kept(t: Tx, clock: int) {
    && (!t.stale ==> InOrder(t) && (clock <= t.expiresAt ==> InShape(t)))
    && FailureLasts(t, clock)
  }

  lemma RefusalKeeps(t: Tx, now: int)
    requires InOrder(t)
    ensures InOrder(Refused(t, now))
    ensures now <= t.expiresAt ==> Refused(t, now) == t
  {
  }

  lemma PrepareBeginKeeps(t: Tx, i: nat, now: int)
    requires InOrder(t)
    ensures InOrder(DoPrepareBegin(t, i, now).tx)
    ensures InShape(t) && now <= t.expiresAt ==> InShape(DoPrepareBegin(t, i, now).tx)
  {
    RefusalKeeps(t, now);
  }

  lemma PrepareEndKeeps(t: Tx, n: nat, built: bool)
    requires InOrder(t) && !DoPrepareEnd(t, n, built).stale
    ensures InOrder(DoPrepareEnd(t, n, built))
    ensures InShape(t) ==> InShape(DoPrepareEnd(t, n, built))
  {
    if n < |t.preparing| {
      var i := t.preparing[n];
      assert i in t.preparing;
      assert forall x | x in Without(t.preparing, n) :: x in t.preparing;
      if built && i < |t.submitted| { assert t.submitted[i] == i; }
    }
  }

  lemma ApproveBeginKeeps(t: Tx, i: nat, now: int)
    requires InOrder(t)
    ensures InOrder(DoApproveBegin(t, i, now).tx)
    ensures InShape(t) && now <= t.expiresAt ==> InShape(DoApproveBegin(t, i, now).tx)
  {
    RefusalKeeps(t, now);
  }

  lemma ApproveEndKeeps(t: Tx, n: nat, success: bool)
    requires InOrder(t)
    ensures InOrder(DoApproveEnd(t, n, success))
    ensures InShape(t) ==> InShape(DoApproveEnd(t, n, success))
  {
    if n < |t.awaited| {
      assert t.awaited == [t.currentStepIndex] && Without(t.awaited, n) == [];
    }
  }

  lemma RejectKeeps(t: Tx, i: nat, now: int)
    requires InOrder(t)
    ensures InOrder(DoReject(t, i, now).tx)
    ensures InShape(t) && now <= t.expiresAt ==> InShape(DoReject(t, i, now).tx)
  {
    RefusalKeeps(t, now);
  }

  lemma StepKeepsFailure(t: Tx, op: Op, clock: int)
    requires FailureLasts(t, clock) && clock <= op.now
    ensures FailureLasts(Step(t, op), op.now)
  {
  }

  lemma StepKeeps(t: Tx, op: Op, clock: int)
    requires Kept(t, clock) && clock <= op.now
    ensures Kept(Step(t, op), op.now)
  {
    StepKeepsFailure(t, op, clock);
    if !Step(t, op).stale {
      match op
      case PrepareBegin(i, now) => PrepareBeginKeeps(t, i, now);
      case PrepareEnd(n, built, now) => PrepareEndKeeps(t, n, built);
      case ApproveBegin(i, now) => ApproveBeginKeeps(t, i, now);
      case ApproveEnd(n, success, now) => ApproveEndKeeps(t, n, success);
      case Reject(i, now) => RejectKeeps(t, i, now);
      case Look(now) =>
    }
  }

  ghost predicate ClockOk(start: int, ops: seq<Op>) {
    && (forall i | 0 <= i < |ops| :: start <= ops[i].now)
    && forall i, j | 0 <= i < j < |ops| :: ops[i].now <= ops[j].now
  }

  ghost function LastClock(start: int, ops: seq<Op>): int {
    if ops == [] then start else ops[|ops| - 1].now
  }

  lemma {:induction false} RunKeeps(t: Tx, start: int, ops: seq<Op>)
    requires Kept(t, start) && ClockOk(start, ops)
    ensures Kept(Run(t, ops), LastClock(start, ops))
  {
    if ops != [] {
      var before, op := ops[..|ops| - 1], ops[|ops| - 1];
      RunKeeps(t, start, before);
      StepKeeps(Run(t, before), op, LastClock(start, before));
    }
  }

  /**
   In every run of a created transaction, whatever is interleaved with preparations and submissions,
   as long as no preparation has ended on a step that was sent already: the steps sent to the
   network are 0, 1, 2, ... in order, each at most once.  Before the deadline, the steps below
   currentStepIndex are then completed and those above it pending, but for rejected ones; and there
   are none of these on an active transaction that no answer took out of a failure.
   */
  lemma StepsSubmittedInOrder(count: nat, ttl: Option<int>, start: int, ops: seq<Op>)
    requires ClockOk(start, ops) && !Run(Created(count, ttl, start), ops).stale
    ensures var t := Run(Created(count, ttl, start), ops);
      && (forall i | 0 <= i < |t.submitted| :: t.submitted[i] == i)
      && |t.submitted| <= count && t.currentStepIndex <= |t.submitted| <= t.currentStepIndex + 1
      && |t.awaited| <= 1
      && (LastClock(start, ops) <= t.expiresAt ==>
            && InShape(t)
            && (t.status != Failed && !t.revived ==> forall j | 0 <= j < |t.steps| :: t.steps[j] != Rejected))
  {
    var t0 := Created(count, ttl, start);
    RunKeeps(t0, start, ops);
    StepCount(t0, ops);
  }

  lemma {:induction false} StepCount(t: Tx, ops: seq<Op>)
    ensures |Run(t, ops).steps| == |t.steps| && Run(t, ops).expiresAt == t.expiresAt
  {
    if ops != [] { StepCount(t, ops[..|ops| - 1]); }
  }

  ghost predicate NoPrepareEnd(ops: seq<Op>) {
    forall op | op in ops :: !op.PrepareEnd?
  }

  lemma {:induction false} StaysFresh(t: Tx, ops: seq<Op>)
    requires NoPrepareEnd(ops)
    ensures Run(t, ops).stale == t.stale
  {
    if ops != [] {
      assert ops[|ops| - 1] in ops;
      assert forall op | op in ops[..|ops| - 1] :: op in ops;
      StaysFresh(t, ops[..|ops| - 1]);
    }
  }

  /**
   Exactly which preparation breaks the order.  In any run that is in order so far, let the
   preparation of step `i` end before the deadline: the calls that follow, without another
   preparation ending, can send a step out of order or twice if and only if step i was sent before.
   */
  lemma OrderBreaksExactly(count: nat, ttl: Option<int>, start: int, ops: seq<Op>, n: nat, now: int)
    requires ClockOk(start, ops) && LastClock(start, ops) <= now
    requires var t := Run(Created(count, ttl, start), ops);
      !t.stale && n < |t.preparing| && now <= t.expiresAt
    ensures var t := Run(Created(count, ttl, start), ops); var after := Step(t, PrepareEnd(n, true, now));
      (exists more :: ClockOk(now, more) && NoPrepareEnd(more) && !CountsUp(Run(after, more).submitted))
      <==> t.preparing[n] in t.submitted
  {
    var t := Run(Created(count, ttl, start), ops);
    RunKeeps(Created(count, ttl, start), start, ops);
    SentAgainExactly(t, n, LastClock(start, ops), now);
  }

  lemma SentAgainExactly(t: Tx, n: nat, clock: int, now: int)
    requires Kept(t, clock) && clock <= now <= t.expiresAt && !t.stale && n < |t.preparing|
    ensures (exists more ::
               ClockOk(now, more) && NoPrepareEnd(more) &&
                   !CountsUp(Run(Step(t, PrepareEnd(n, true, now)), more).submitted))
            <==> t.preparing[n] in t.submitted
  {
    var i, op := t.preparing[n], PrepareEnd(n, true, now);
    var after := Step(t, op);
    assert i in t.preparing;
    if i in t.submitted {
      var more := [ApproveBegin(i, now)];
      assert Run(after, more) == Step(Run(after, []), more[0]);
      assert Run(after, more).submitted == t.submitted + [i];
      assert (t.submitted + [i])[|t.submitted|] == i;
      assert !CountsUp(Run(after, more).submitted);
      assert ClockOk(now, more) && NoPrepareEnd(more);
    } else {
      StepKeeps(t, op, clock);
      forall more | ClockOk(now, more) && NoPrepareEnd(more)
        ensures CountsUp(Run(after, more).submitted)
      {
        StaysFresh(after, more);
        RunKeeps(after, now, more);
      }
    }
  }

  /**
   Nothing is submitted after the deadline, on a completed transaction or on one that stands as
   failed; and nothing is submitted on a transaction that failed at any time before, unless the
   answer to an awaited preparation or submission took it out of that failure.
   */
  lemma NothingSubmittedOnceOver(count: nat, ttl: Option<int>, start: int, ops: seq<Op>, op: Op)
    requires ClockOk(start, ops + [op])
    ensures var t := Run(Created(count, ttl, start), ops);
      Step(t, op).submitted != t.submitted ==>
        && op.ApproveBegin? && op.now <= t.expiresAt
        && t.status != Failed && t.status != Completed
        && (t.everFailed ==> t.revived)
        && (!t.stale ==> op.step == t.currentStepIndex)
  {
    var all := ops + [op];
    assert forall i | 0 <= i < |ops| :: all[i] == ops[i];
    assert all[|ops|] == op;
    RunKeeps(Created(count, ttl, start), start, ops);
    assert LastClock(start, ops) <= op.now by {
      if ops != [] { assert all[|ops| - 1].now <= all[|ops|].now; } else { assert start <= all[0].now; }
    }
  }

  // ---------------------------------------------------------------------------
  // Failures that do not last
  // ---------------------------------------------------------------------------

  /** Failed, or over its deadline, with nothing awaited. */
  ghost predicate Over(t: Tx, clock: int) {
    && t.preparing == [] && t.awaited == []
    && (t.status == Failed || (t.status == Expired && clock > t.expiresAt))
  }

  lemma {:induction false} StaysOver(t: Tx, start: int, ops: seq<Op>)
    requires Over(t, start) && ClockOk(start, ops)
    ensures Over(Run(t, ops), LastClock(start, ops)) && Run(t, ops).submitted == t.submitted
  {
    if ops != [] {
      StaysOver(t, start, ops[..|ops| - 1]);
      StepCount(t, ops[..|ops| - 1]);
    }
  }

  predicate OutOfFailure(t: Tx) {
    t.status != Failed && t.status != Expired
  }

  /**
   Exactly when a failure lasts: after any run that leaves the transaction failed, some continuation
   takes it out of its failure if and only if the preparation or submission of a step is still awaited.
   */
  lemma FailureUndoneExactly(count: nat, ttl: Option<int>, start: int, ops: seq<Op>)
    requires ClockOk(start, ops) && Run(Created(count, ttl, start), ops).status == Failed
    ensures var t := Run(Created(count, ttl, start), ops);
      (exists more :: ClockOk(LastClock(start, ops), more) && OutOfFailure(Run(t, more)))
      <==> t.preparing != [] || t.awaited != []
  {
    var t, clock := Run(Created(count, ttl, start), ops), LastClock(start, ops);
    AwaitedAreSteps(Created(count, ttl, start), ops);
    if t.preparing == [] && t.awaited == [] {
      forall more | ClockOk(clock, more)
        ensures !OutOfFailure(Run(t, more))
      {
        StaysOver(t, clock, more);
      }
    } else {
      assert t.preparing != [] ==> t.preparing[0] in t.preparing;
      assert t.awaited != [] ==> t.awaited[0] in t.awaited;
      var op := if t.preparing != [] then PrepareEnd(0, true, clock) else ApproveEnd(0, true, clock);
      var more := [op];
      assert Run(t, more) == Step(Run(t, []), op);
      assert OutOfFailure(Run(t, more)) && ClockOk(clock, more);
    }
  }

  ghost predicate AwaitsSteps(t: Tx) {
    && (forall i | i in t.preparing :: i < |t.steps|)
    && (forall i | i in t.awaited :: i < |t.steps|)
  }

  lemma WithoutIsPart(s: seq<nat>, n: nat)
    requires n < |s|
    ensures forall i | i in Without(s, n) :: i in s
  {
  }

  lemma {:induction false} AwaitedAreSteps(t: Tx, ops: seq<Op>)
    requires t.preparing == [] && t.awaited == []
    ensures AwaitsSteps(Run(t, ops))
  {
    if ops != [] {
      AwaitedAreSteps(t, ops[..|ops| - 1]);
      StepAwaitsSteps(Run(t, ops[..|ops| - 1]), ops[|ops| - 1]);
    }
  }

  lemma StepAwaitsSteps(t: Tx, op: Op)
    requires AwaitsSteps(t)
    ensures AwaitsSteps(Step(t, op))
  {
    if op.PrepareEnd? && op.n < |t.preparing| { WithoutIsPart(t.preparing, op.n); }
    if op.ApproveEnd? && op.n < |t.awaited| { WithoutIsPart(t.awaited, op.n); }
  }

  // ---------------------------------------------------------------------------
  // Runs that go wrong
  // ---------------------------------------------------------------------------

  lemma RunTwo(t: Tx, a: Op, b: Op, t': Tx)
    requires Step(Step(t, a), b) == t'
    ensures Run(t, [a, b]) == t'
  {
    assert [a, b][..1] == [a];
    assert Run(t, [a]) == Step(Run(t, []), a);
  }

  lemma {:induction false} RunConcat(t: Tx, a: seq<Op>, b: seq<Op>)
    ensures Run(t, a + b) == Run(Run(t, a), b)
  {
    if b == [] {
      assert a + b == a;
    } else {
      RunConcat(t, a, b[..|b| - 1]);
      assert (a + b)[..|a + b| - 1] == a + b[..|b| - 1];
    }
  }

  /** Two preparations of one step pass their checks together, and the step is sent twice. */
  lemma StepSentTwice() returns (begin: seq<Op>, first: seq<Op>, second: seq<Op>)
    ensures ClockOk(0, begin + first + second)
    ensures Run(Created(1, None, 0), begin + first + second).submitted == [0, 0]
  {
    begin := [PrepareBegin(0, 1), PrepareBegin(0, 2)];
    first := [PrepareEnd(0, true, 3), ApproveBegin(0, 4)];
    second := [PrepareEnd(0, true, 5), ApproveBegin(0, 6)];
    var t1 := Tx([Pending], 0, Building, 600_000, [0, 0], [], [], false, false, false);
    var t2 := Tx([Executing], 0, InExecution, 600_000, [0], [0], [0], false, false, false);
    BothPrepare(t1);
    FirstSends(t1, t2);
    SecondSends(t2);
    RunThree(Created(1, None, 0), t1, t2, begin, first, second);
    ClockOfThree(begin, first, second);
  }

  lemma RunThree(t: Tx, t1: Tx, t2: Tx, a: seq<Op>, b: seq<Op>, c: seq<Op>)
    requires Run(t, a) == t1 && Run(t1, b) == t2
    ensures Run(t, a + b + c) == Run(t2, c)
  {
    RunConcat(t, a, b);
    RunConcat(t, a + b, c);
  }

  lemma ClockOfThree(a: seq<Op>, b: seq<Op>, c: seq<Op>)
    requires |a| == |b| == |c| == 2
    requires 0 <= a[0].now <= a[1].now <= b[0].now <= b[1].now <= c[0].now <= c[1].now
    ensures ClockOk(0, a + b + c)
  {
    assert a + b + c == [a[0], a[1], b[0], b[1], c[0], c[1]];
  }

  lemma BothPrepare(t1: Tx)
    requires t1 == Tx([Pending], 0, Building, 600_000, [0, 0], [], [], false, false, false)
    ensures Run(Created(1, None, 0), [PrepareBegin(0, 1), PrepareBegin(0, 2)]) == t1
  {
    RunTwo(Created(1, None, 0), PrepareBegin(0, 1), PrepareBegin(0, 2), t1);
  }

  lemma FirstSends(t1: Tx, t2: Tx)
    requires t1 == Tx([Pending], 0, Building, 600_000, [0, 0], [], [], false, false, false)
    requires t2 == Tx([Executing], 0, InExecution, 600_000, [0], [0], [0], false, false, false)
    ensures Run(t1, [PrepareEnd(0, true, 3), ApproveBegin(0, 4)]) == t2
  {
    RunTwo(t1, PrepareEnd(0, true, 3), ApproveBegin(0, 4), t2);
  }

  lemma SecondSends(t2: Tx)
    requires t2 == Tx([Executing], 0, InExecution, 600_000, [0], [0], [0], false, false, false)
    ensures Run(t2, [PrepareEnd(0, true, 5), ApproveBegin(0, 6)]).submitted == [0, 0]
  {
    RunTwo(t2, PrepareEnd(0, true, 5), ApproveBegin(0, 6),
           Tx([Executing], 0, InExecution, 600_000, [], [0, 0], [0, 0], false, true, false));
  }

  /** A step is rejected while its preparation is awaited, the caller is told so, and it is sent all the same. */
  lemma RejectedStepIsSent() returns (before: seq<Op>, after: seq<Op>)
    ensures var t1 := Run(Created(1, None, 0), before);
      t1.status == Failed && t1.steps == [Rejected] && t1.submitted == [] && Run(t1, after).submitted == [0]
  {
    before, after := [PrepareBegin(0, 1), Reject(0, 2)], [PrepareEnd(0, true, 3), ApproveBegin(0, 4)];
    var t1 := Tx([Rejected], 0, Failed, 600_000, [0], [], [], true, false, false);
    RunTwo(Created(1, None, 0), before[0], before[1], t1);
    RunTwo(t1, after[0], after[1], Tx([Executing], 0, InExecution, 600_000, [], [0], [0], true, false, true));
  }

  /** A run in which a transaction is rejected while a submission is awaited, and still sends its next step. */
  lemma RejectedTransactionSubmitsAgain() returns (before: seq<Op>, after: seq<Op>)
    ensures var t1 := Run(Created(2, None, 0), before);
      t1.status == Failed && t1.submitted == [0] && Run(t1, after).submitted == [0, 1]
  {
    var t1 := Tx([Rejected, Pending], 0, Failed, 600_000, [], [0], [0], true, false, false);
    before := SendAndReject(t1);
    after := AnswerAndSend(t1);
  }

  lemma SendAndReject(t1: Tx) returns (ops: seq<Op>)
    requires t1 == Tx([Rejected, Pending], 0, Failed, 600_000, [], [0], [0], true, false, false)
    ensures Run(Created(2, None, 0), ops) == t1
  {
    var t := Tx([Approved, Pending], 0, PendingApproval, 600_000, [], [], [], false, false, false);
    RunTwo(Created(2, None, 0), PrepareBegin(0, 1), PrepareEnd(0, true, 2), t);
    RunTwo(t, ApproveBegin(0, 3), Reject(0, 4), t1);
    RunConcat(Created(2, None, 0), [PrepareBegin(0, 1), PrepareEnd(0, true, 2)], [ApproveBegin(0, 3), Reject(0, 4)]);
    ops := [PrepareBegin(0, 1), PrepareEnd(0, true, 2)] + [ApproveBegin(0, 3), Reject(0, 4)];
  }

  lemma AnswerAndSend(t1: Tx) returns (ops: seq<Op>)
    requires t1 == Tx([Rejected, Pending], 0, Failed, 600_000, [], [0], [0], true, false, false)
    ensures Run(t1, ops).submitted == [0, 1]
  {
    var t := Tx([StepCompleted, Pending], 1, PendingApproval, 600_000, [1], [], [0], true, false, true);
    RunTwo(t1, ApproveEnd(0, true, 5), PrepareBegin(1, 6), t);
    RunTwo(t, PrepareEnd(0, true, 7), ApproveBegin(1, 8),
           Tx([StepCompleted, Executing], 1, InExecution, 600_000, [], [1], [0, 1], true, false, true));
    RunConcat(t1, [ApproveEnd(0, true, 5), PrepareBegin(1, 6)], [PrepareEnd(0, true, 7), ApproveBegin(1, 8)]);
    ops := [ApproveEnd(0, true, 5), PrepareBegin(1, 6)] + [PrepareEnd(0, true, 7), ApproveBegin(1, 8)];
  }
}
