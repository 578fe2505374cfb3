/**
 What decides each status of a multi-step transaction, what each call replies, and what is awaited,
 read off the list of operations (api/src/services/transactionBuilder.service.ts).
 */
module TransactionHistory {
  import opened LastWrite
  import opened Options
  import opened TransactionBuilder

  // ---------------------------------------------------------------------------
  // What the operations are
  // ---------------------------------------------------------------------------

  /** In milliseconds, ten minutes after the creation unless the request says how many seconds. */
  function Deadline(ttl: Option<int>, start: int): int {
    start + (if ttl.Some? then 1000 * ttl.value else 600_000)
  }

  /** Calls for step `i` get past the tests that all of them make. */
  predicate Open(t: Tx, i: nat, now: int, deadline: int) {
    now <= deadline && t.status != Completed && t.status != Failed && i < |t.steps|
  }

  predicate PreparationLands(t: Tx, op: Op) {
    op.PrepareEnd? && op.built && op.n < |t.preparing|
  }

  predicate AnswerLands(t: Tx, op: Op, success: bool) {
    op.ApproveEnd? && op.success == success && op.n < |t.awaited|
  }

  predicate Sent(t: Tx, op: Op, deadline: int) {
    op.ApproveBegin? && Open(t, op.step, op.now, deadline) && t.steps[op.step] == Approved
  }

  predicate RejectionAccepted(t: Tx, op: Op, deadline: int) {
    op.Reject? && Open(t, op.step, op.now, deadline)
  }

  /** Any late call that asks for an active transaction, and a late look at one that is not over. */
  predicate FindsExpired(t: Tx, op: Op, deadline: int) {
    && op.now > deadline
    && (op.PrepareBegin? || op.ApproveBegin? || op.Reject? ||
        (op.Look? && t.status != Completed && t.status != Failed))
  }

  /** What the operation, made in `t`, writes as the status of step `i`, if anything. */
  function StepWrite(t: Tx, op: Op, i: nat, deadline: int): Option<StepStatus>
    requires i < |t.steps|
  {
    if PreparationLands(t, op) && t.preparing[op.n] == i then Some(Approved)
    else if Sent(t, op, deadline) && op.step == i then Some(Executing)
    else if AnswerLands(t, op, true) && t.awaited[op.n] == i then Some(StepCompleted)
    else if AnswerLands(t, op, false) && t.awaited[op.n] == i then Some(StepFailed)
    else if RejectionAccepted(t, op, deadline) && op.step == i then Some(Rejected)
    else if FindsExpired(t, op, deadline) && t.steps[i] in {Pending, Approved} then Some(StepExpired)
    else None
  }

  /** What it writes as the status of the transaction. */
  function StatusWrite(t: Tx, op: Op, deadline: int): Option<TxStatus> {
    if AnswerLands(t, op, true) && t.awaited[op.n] + 1 == |t.steps| then Some(Completed)
    else if AnswerLands(t, op, true) || PreparationLands(t, op) then Some(PendingApproval)
    else if Sent(t, op, deadline) then Some(InExecution)
    else if AnswerLands(t, op, false) || RejectionAccepted(t, op, deadline) then Some(Failed)
    else if FindsExpired(t, op, deadline) then Some(Expired)
    else None
  }

  /** What it writes as the index of the current step. */
  function IndexWrite(t: Tx, op: Op): Option<nat> {
    if AnswerLands(t, op, true) then Some(t.awaited[op.n] + 1) else None
  }

  // ---------------------------------------------------------------------------
  // The last write decides
  // ---------------------------------------------------------------------------

  lemma CreatedFacts(count: nat, ttl: Option<int>, start: int)
    ensures var t := Created(count, ttl, start);
      && t.status == Building && t.currentStepIndex == 0 && t.expiresAt == Deadline(ttl, start)
      && t.preparing == [] && t.awaited == [] && t.submitted == []
      && |t.steps| == count && forall i | 0 <= i < count :: t.steps[i] == Pending
  {
  }

  ghost function StepWrites(t: Tx, ops: seq<Op>, i: nat, deadline: int): (w: seq<Option<StepStatus>>)
    requires i < |t.steps|
    ensures |w| == |ops|
  {
    if ops == [] then []
    else
      var before := ops[..|ops| - 1];
      StepCount(t, before);
      StepWrites(t, before, i, deadline) + [StepWrite(Run(t, before), ops[|ops| - 1], i, deadline)]
  }

  ghost function StatusWrites(t: Tx, ops: seq<Op>, deadline: int): (w: seq<Option<TxStatus>>)
    ensures |w| == |ops|
  {
    if ops == [] then []
    else
      var before := ops[..|ops| - 1];
      StatusWrites(t, before, deadline) + [StatusWrite(Run(t, before), ops[|ops| - 1], deadline)]
  }

  ghost function IndexWrites(t: Tx, ops: seq<Op>): (w: seq<Option<nat>>)
    ensures |w| == |ops|
  {
    if ops == [] then []
    else
      var before := ops[..|ops| - 1];
      IndexWrites(t, before) + [IndexWrite(Run(t, before), ops[|ops| - 1])]
  }

  lemma AnswerWritesStep(t: Tx, op: Op, i: nat)
    requires op.ApproveEnd? && AwaitsSteps(t) && i < |t.steps|
    ensures var w := StepWrite(t, op, i, t.expiresAt);
      i < |Step(t, op).steps| && Step(t, op).steps[i] == if w.Some? then w.value else t.steps[i]
  {
    if op.n < |t.awaited| { assert t.awaited[op.n] in t.awaited; }
  }

  lemma PreparationWritesStep(t: Tx, op: Op, i: nat)
    requires op.PrepareEnd? && AwaitsSteps(t) && i < |t.steps|
    ensures var w := StepWrite(t, op, i, t.expiresAt);
      i < |Step(t, op).steps| && Step(t, op).steps[i] == if w.Some? then w.value else t.steps[i]
  {
    if op.n < |t.preparing| { assert t.preparing[op.n] in t.preparing; }
  }

  lemma SendingWritesStep(t: Tx, op: Op, i: nat)
    requires op.ApproveBegin? && i < |t.steps|
    ensures var w := StepWrite(t, op, i, t.expiresAt);
      i < |Step(t, op).steps| && Step(t, op).steps[i] == if w.Some? then w.value else t.steps[i]
  {
  }

  lemma RejectionWritesStep(t: Tx, op: Op, i: nat)
    requires op.Reject? && i < |t.steps|
    ensures var w := StepWrite(t, op, i, t.expiresAt);
      i < |Step(t, op).steps| && Step(t, op).steps[i] == if w.Some? then w.value else t.steps[i]
  {
  }

  lemma LookWritesStep(t: Tx, op: Op, i: nat)
    requires (op.Look? || op.PrepareBegin?) && i < |t.steps|
    ensures var w := StepWrite(t, op, i, t.expiresAt);
      i < |Step(t, op).steps| && Step(t, op).steps[i] == if w.Some? then w.value else t.steps[i]
  {
  }

  lemma StepIsWritten(t: Tx, op: Op, i: nat)
    requires AwaitsSteps(t) && i < |t.steps|
    ensures var w := StepWrite(t, op, i, t.expiresAt);
      i < |Step(t, op).steps| && Step(t, op).steps[i] == if w.Some? then w.value else t.steps[i]
  {
    match op
    case PrepareBegin(_, _) => LookWritesStep(t, op, i);
    case PrepareEnd(_, _, _) => PreparationWritesStep(t, op, i);
    case ApproveBegin(_, _) => SendingWritesStep(t, op, i);
    case ApproveEnd(_, _, _) => AnswerWritesStep(t, op, i);
    case Reject(_, _) => RejectionWritesStep(t, op, i);
    case Look(_) => LookWritesStep(t, op, i);
  }

  lemma StatusIsWritten(t: Tx, op: Op)
    requires AwaitsSteps(t)
    ensures var w := StatusWrite(t, op, t.expiresAt);
      Step(t, op).status == if w.Some? then w.value else t.status
    ensures var w := IndexWrite(t, op);
      Step(t, op).currentStepIndex == if w.Some? then w.value else t.currentStepIndex
  {
    if op.PrepareEnd? && op.n < |t.preparing| { assert t.preparing[op.n] in t.preparing; }
    if op.ApproveEnd? && op.n < |t.awaited| { assert t.awaited[op.n] in t.awaited; }
  }

  lemma {:induction false} StepDecided(t: Tx, ops: seq<Op>, i: nat)
    requires t.preparing == [] && t.awaited == [] && i < |t.steps|
    ensures i < |Run(t, ops).steps|
    ensures Decided(StepWrites(t, ops, i, t.expiresAt), t.steps[i], Run(t, ops).steps[i])
  {
    if ops != [] {
      var before, op := ops[..|ops| - 1], ops[|ops| - 1];
      var mid := Run(t, before);
      StepDecided(t, before, i);
      StepCount(t, before);
      AwaitedAreSteps(t, before);
      StepIsWritten(mid, op, i);
      DecidedNext(StepWrites(t, before, i, t.expiresAt), t.steps[i], mid.steps[i], StepWrite(mid, op, i, t.expiresAt));
    }
  }

  lemma {:induction false} StatusDecided(t: Tx, ops: seq<Op>)
    requires t.preparing == [] && t.awaited == []
    ensures Decided(StatusWrites(t, ops, t.expiresAt), t.status, Run(t, ops).status)
  {
    if ops != [] {
      var before, op := ops[..|ops| - 1], ops[|ops| - 1];
      var mid := Run(t, before);
      StatusDecided(t, before);
      StepCount(t, before);
      AwaitedAreSteps(t, before);
      StatusIsWritten(mid, op);
      DecidedNext(StatusWrites(t, before, t.expiresAt), t.status, mid.status, StatusWrite(mid, op, t.expiresAt));
    }
  }

  lemma {:induction false} IndexDecided(t: Tx, ops: seq<Op>)
    requires t.preparing == [] && t.awaited == []
    ensures Decided(IndexWrites(t, ops), t.currentStepIndex, Run(t, ops).currentStepIndex)
  {
    if ops != [] {
      var before, op := ops[..|ops| - 1], ops[|ops| - 1];
      var mid := Run(t, before);
      IndexDecided(t, before);
      AwaitedAreSteps(t, before);
      StatusIsWritten(mid, op);
      DecidedNext(IndexWrites(t, before), t.currentStepIndex, mid.currentStepIndex, IndexWrite(mid, op));
    }
  }

  /**
   In every run a step has a status if and only if that is the last one written to it, or it is
   pending and nothing was written.
   */
  lemma StepStatusExactly(count: nat, ttl: Option<int>, start: int, ops: seq<Op>, i: nat, s: StepStatus)
    requires i < count
    ensures var t0 := Created(count, ttl, start);
      && i < |Run(t0, ops).steps|
      && (Run(t0, ops).steps[i] == s <==> Decided(StepWrites(t0, ops, i, Deadline(ttl, start)), Pending, s))
  {
    var t0 := Created(count, ttl, start);
    CreatedFacts(count, ttl, start);
    StepDecided(t0, ops, i);
    DecidedExactly(StepWrites(t0, ops, i, t0.expiresAt), Pending, Run(t0, ops).steps[i], s);
  }

  /**
   In every run the transaction has a status if and only if that is the last one written: completed
   by the successful answer for the last step, failed by a failed answer or a rejection, and so on.
   */
  lemma StatusExactly(count: nat, ttl: Option<int>, start: int, ops: seq<Op>, s: TxStatus)
    ensures var t0 := Created(count, ttl, start);
      Run(t0, ops).status == s <==> Decided(StatusWrites(t0, ops, Deadline(ttl, start)), Building, s)
  {
    var t0 := Created(count, ttl, start);
    CreatedFacts(count, ttl, start);
    StatusDecided(t0, ops);
    DecidedExactly(StatusWrites(t0, ops, t0.expiresAt), Building, Run(t0, ops).status, s);
  }

  /** In every run the current step is the one behind the last successful answer. */
  lemma CurrentStepExactly(count: nat, ttl: Option<int>, start: int, ops: seq<Op>, c: nat)
    ensures var t0 := Created(count, ttl, start);
      Run(t0, ops).currentStepIndex == c <==> Decided(IndexWrites(t0, ops), 0, c)
  {
    var t0 := Created(count, ttl, start);
    CreatedFacts(count, ttl, start);
    IndexDecided(t0, ops);
    DecidedExactly(IndexWrites(t0, ops), 0, Run(t0, ops).currentStepIndex, c);
  }

  // ---------------------------------------------------------------------------
  // Completed transactions
  // ---------------------------------------------------------------------------

  lemma {:induction false} CompletedAtEnd(t: Tx, ops: seq<Op>)
    requires t.preparing == [] && t.awaited == []
    requires t.status == Completed ==> t.currentStepIndex == |t.steps|
    ensures Run(t, ops).status == Completed ==> Run(t, ops).currentStepIndex == |t.steps|
  {
    if ops != [] {
      var before := ops[..|ops| - 1];
      CompletedAtEnd(t, before);
      StepCount(t, before);
      AwaitedAreSteps(t, before);
      StatusIsWritten(Run(t, before), ops[|ops| - 1]);
    }
  }

  /**
   A completed transaction has sent each of its steps once, in order, unless a preparation ended on
   a step that had been sent; and before the deadline all of them are completed, unless an answer
   took the transaction out of a failure.
   */
  lemma CompletedHasSentAll(count: nat, ttl: Option<int>, start: int, ops: seq<Op>)
    requires ClockOk(start, ops)
    requires var t := Run(Created(count, ttl, start), ops); t.status == Completed && !t.stale
    ensures var t := Run(Created(count, ttl, start), ops);
      && |t.submitted| == count && (forall i | 0 <= i < count :: t.submitted[i] == i)
      && (LastClock(start, ops) <= Deadline(ttl, start) && !t.revived ==>
            |t.steps| == count && forall i | 0 <= i < count :: t.steps[i] == StepCompleted)
  {
    var t0 := Created(count, ttl, start);
    StepsSubmittedInOrder(count, ttl, start, ops);
    CompletedAtEnd(t0, ops);
    StepCount(t0, ops);
  }

  // ---------------------------------------------------------------------------
  // Failures, revivals and stale preparations
  // ---------------------------------------------------------------------------

  predicate Fails(t: Tx, op: Op, deadline: int) {
    AnswerLands(t, op, false) || RejectionAccepted(t, op, deadline)
  }

  /** The end of a preparation or a successful answer that finds the transaction failed. */
  predicate Revives(t: Tx, op: Op) {
    t.status == Failed && (PreparationLands(t, op) || AnswerLands(t, op, true))
  }

  predicate PreparesSentStep(t: Tx, op: Op) {
    PreparationLands(t, op) && t.preparing[op.n] in t.submitted
  }

  ghost predicate SomeFail(t: Tx, ops: seq<Op>, deadline: int) {
    exists k | 0 <= k < |ops| :: Fails(Run(t, ops[..k]), ops[k], deadline)
  }

  ghost predicate SomeRevive(t: Tx, ops: seq<Op>) {
    exists k | 0 <= k < |ops| :: Revives(Run(t, ops[..k]), ops[k])
  }

  ghost predicate SomePrepareSentStep(t: Tx, ops: seq<Op>) {
    exists k | 0 <= k < |ops| :: PreparesSentStep(Run(t, ops[..k]), ops[k])
  }

  lemma SomeNext(t: Tx, before: seq<Op>, op: Op, deadline: int)
    ensures var ops, mid := before + [op], Run(t, before);
      && (SomeFail(t, ops, deadline) <==> SomeFail(t, before, deadline) || Fails(mid, op, deadline))
      && (SomeRevive(t, ops) <==> SomeRevive(t, before) || Revives(mid, op))
      && (SomePrepareSentStep(t, ops) <==> SomePrepareSentStep(t, before) || PreparesSentStep(mid, op))
  {
    var ops := before + [op];
    assert ops[..|before|] == before;
    forall k | 0 <= k < |before|
      ensures ops[..k] == before[..k]
    {
    }
  }

  lemma StepFlags(t: Tx, op: Op)
    requires AwaitsSteps(t)
    ensures Step(t, op).everFailed == (t.everFailed || Fails(t, op, t.expiresAt))
    ensures Step(t, op).revived == (t.revived || Revives(t, op))
    ensures Step(t, op).stale == (t.stale || PreparesSentStep(t, op))
  {
    if op.PrepareEnd? && op.n < |t.preparing| { assert t.preparing[op.n] in t.preparing; }
    if op.ApproveEnd? && op.n < |t.awaited| { assert t.awaited[op.n] in t.awaited; }
  }

  /**
   In every run a failure was recorded, an answer ended one, and a preparation ended on a step already
   sent, if and only if some operation of the run did so.
   */
  lemma {:induction false} FlagsExactly(count: nat, ttl: Option<int>, start: int, ops: seq<Op>)
    ensures var t0 := Created(count, ttl, start); var t := Run(t0, ops);
      && (t.everFailed <==> SomeFail(t0, ops, Deadline(ttl, start)))
      && (t.revived <==> SomeRevive(t0, ops))
      && (t.stale <==> SomePrepareSentStep(t0, ops))
  {
    var t0 := Created(count, ttl, start);
    CreatedFacts(count, ttl, start);
    if ops != [] {
      var before, op := ops[..|ops| - 1], ops[|ops| - 1];
      assert ops == before + [op];
      FlagsExactly(count, ttl, start, before);
      StepCount(t0, before);
      AwaitedAreSteps(t0, before);
      StepFlags(Run(t0, before), op);
      SomeNext(t0, before, op, Deadline(ttl, start));
    }
  }

  // ---------------------------------------------------------------------------
  // Replies
  // ---------------------------------------------------------------------------

  /** What the tests made by every call refuse. */
  predicate Turned(t: Tx, i: nat, now: int, deadline: int, e: Error) {
    match e
    case TransactionExpired => now > deadline
    case AlreadyCompleted => now <= deadline && t.status == Completed
    case HasFailed => now <= deadline && t.status == Failed
    case StepNotFound => now <= deadline && t.status !in {Completed, Failed} && i >= |t.steps|
    case _ => false
  }

  /**
   In every run the three calls reply exactly so.  A preparation is for the current step, still
   pending; an approval for a step that was prepared; a rejection for any step of an open transaction.
   */
  lemma RepliesExactly(count: nat, ttl: Option<int>, start: int, ops: seq<Op>, i: nat, now: int, e: Error)
    ensures var t, d := Run(Created(count, ttl, start), ops), Deadline(ttl, start);
      var p, a, r := DoPrepareBegin(t, i, now).reply, DoApproveBegin(t, i, now).reply, DoReject(t, i, now).reply;
      && (p == Done <==> Open(t, i, now, d) && i == t.currentStepIndex && t.steps[i] == Pending)
      && (p == Error(e) <==>
            || Turned(t, i, now, d, e)
            || (Open(t, i, now, d) && i != t.currentStepIndex && e == OutOfOrder)
            || (Open(t, i, now, d) && i == t.currentStepIndex && t.steps[i] != Pending && e == WrongStatus))
      && (a == Done <==> Open(t, i, now, d) && t.steps[i] == Approved)
      && (a == Error(e) <==>
            Turned(t, i, now, d, e) || (Open(t, i, now, d) && t.steps[i] != Approved && e == WrongStatus))
      && (r == Done <==> Open(t, i, now, d))
      && (r == Error(e) <==> Turned(t, i, now, d, e))
  {
    StepCount(Created(count, ttl, start), ops);
  }

  // ---------------------------------------------------------------------------
  // Awaited calls
  // ---------------------------------------------------------------------------

  /** A preparation accepted by its checks. */
  predicate PreparationBegins(t: Tx, op: Op, deadline: int) {
    && op.PrepareBegin? && Open(t, op.step, op.now, deadline)
    && op.step == t.currentStepIndex && t.steps[op.step] == Pending
  }

  /** The step sent to the network, if one is. */
  function SentBy(t: Tx, op: Op, deadline: int): seq<nat> {
    if Sent(t, op, deadline) then [op.step] else []
  }

  /** The step whose answer comes. */
  function AnsweredBy(t: Tx, op: Op): multiset<nat> {
    if op.ApproveEnd? && op.n < |t.awaited| then multiset{t.awaited[op.n]} else multiset{}
  }

  function BegunBy(t: Tx, op: Op, deadline: int): multiset<nat> {
    if PreparationBegins(t, op, deadline) then multiset{op.step} else multiset{}
  }

  /** The step whose preparation ends, well or badly. */
  function EndedBy(t: Tx, op: Op): multiset<nat> {
    if op.PrepareEnd? && op.n < |t.preparing| then multiset{t.preparing[op.n]} else multiset{}
  }

  ghost function SentSteps(t: Tx, ops: seq<Op>, deadline: int): seq<nat> {
    if ops == [] then []
    else
      var before := ops[..|ops| - 1];
      SentSteps(t, before, deadline) + SentBy(Run(t, before), ops[|ops| - 1], deadline)
  }

  ghost function AnsweredSteps(t: Tx, ops: seq<Op>): multiset<nat> {
    if ops == [] then multiset{}
    else
      var before := ops[..|ops| - 1];
      AnsweredSteps(t, before) + AnsweredBy(Run(t, before), ops[|ops| - 1])
  }

  ghost function BegunPreparations(t: Tx, ops: seq<Op>, deadline: int): multiset<nat> {
    if ops == [] then multiset{}
    else
      var before := ops[..|ops| - 1];
      BegunPreparations(t, before, deadline) + BegunBy(Run(t, before), ops[|ops| - 1], deadline)
  }

  ghost function EndedPreparations(t: Tx, ops: seq<Op>): multiset<nat> {
    if ops == [] then multiset{}
    else
      var before := ops[..|ops| - 1];
      EndedPreparations(t, before) + EndedBy(Run(t, before), ops[|ops| - 1])
  }

  lemma WithoutTakesOne(s: seq<nat>, n: nat)
    requires n < |s|
    ensures multiset(s) == multiset(Without(s, n)) + multiset{s[n]}
  {
    assert s == s[..n] + [s[n]] + s[n + 1..];
  }

  lemma StepSends(t: Tx, op: Op)
    ensures Step(t, op).submitted == t.submitted + SentBy(t, op, t.expiresAt)
  {
  }

  lemma AnswerTakesOne(t: Tx, op: Op)
    requires AwaitsSteps(t) && op.ApproveEnd?
    ensures AnsweredBy(t, op) + multiset(Step(t, op).awaited) == multiset(t.awaited)
  {
    if op.n < |t.awaited| {
      assert t.awaited[op.n] in t.awaited;
      WithoutTakesOne(t.awaited, op.n);
      assert Step(t, op).awaited == Without(t.awaited, op.n);
    }
  }

  lemma OthersAwait(t: Tx, op: Op)
    requires !op.ApproveEnd?
    ensures Step(t, op).awaited == t.awaited + SentBy(t, op, t.expiresAt)
  {
  }

  lemma StepAwaits(t: Tx, op: Op)
    requires AwaitsSteps(t)
    ensures AnsweredBy(t, op) + multiset(Step(t, op).awaited)
         == multiset(t.awaited) + multiset(SentBy(t, op, t.expiresAt))
  {
    if op.ApproveEnd? { AnswerTakesOne(t, op); } else { OthersAwait(t, op); }
  }

  lemma EndTakesOne(t: Tx, op: Op)
    requires AwaitsSteps(t) && op.PrepareEnd?
    ensures EndedBy(t, op) + multiset(Step(t, op).preparing) == multiset(t.preparing)
  {
    if op.n < |t.preparing| {
      assert t.preparing[op.n] in t.preparing;
      WithoutTakesOne(t.preparing, op.n);
      assert Step(t, op).preparing == Without(t.preparing, op.n);
    }
  }

  lemma OthersPrepare(t: Tx, op: Op)
    requires !op.PrepareEnd?
    ensures Step(t, op).preparing ==
        t.preparing + if PreparationBegins(t, op, t.expiresAt) then [op.step] else []
  {
  }

  lemma StepPrepares(t: Tx, op: Op)
    requires AwaitsSteps(t)
    ensures EndedBy(t, op) + multiset(Step(t, op).preparing)
         == multiset(t.preparing) + BegunBy(t, op, t.expiresAt)
  {
    if op.PrepareEnd? { EndTakesOne(t, op); } else { OthersPrepare(t, op); }
  }

  lemma {:induction false} SentAreSent(t: Tx, ops: seq<Op>)
    ensures Run(t, ops).submitted == t.submitted + SentSteps(t, ops, t.expiresAt)
  {
    if ops != [] {
      var before := ops[..|ops| - 1];
      SentAreSent(t, before);
      StepCount(t, before);
      StepSends(Run(t, before), ops[|ops| - 1]);
    }
  }

  lemma PreparingNext(begun: multiset<nat>, more: multiset<nat>, ended: multiset<nat>, last: multiset<nat>,
                      preparing: seq<nat>, preparing': seq<nat>)
    requires begun == ended + multiset(preparing)
    requires last + multiset(preparing') == multiset(preparing) + more
    ensures begun + more == ended + last + multiset(preparing')
  {
    forall x
      ensures (begun + more)[x] == (ended + last + multiset(preparing'))[x]
    {
      assert (last + multiset(preparing'))[x] == (multiset(preparing) + more)[x];
    }
  }

  lemma BalanceNext(sent: seq<nat>, more: seq<nat>, answered: multiset<nat>, last: multiset<nat>,
                    awaited: seq<nat>, awaited': seq<nat>)
    requires multiset(sent) == answered + multiset(awaited)
    requires last + multiset(awaited') == multiset(awaited) + multiset(more)
    ensures multiset(sent + more) == answered + last + multiset(awaited')
  {
    PreparingNext(multiset(sent), multiset(more), answered, last, awaited, awaited');
    assert multiset(sent + more) == multiset(sent) + multiset(more);
  }

  lemma {:induction false} AnswersBalance(t: Tx, ops: seq<Op>)
    requires t.preparing == [] && t.awaited == []
    ensures multiset(SentSteps(t, ops, t.expiresAt)) == AnsweredSteps(t, ops) + multiset(Run(t, ops).awaited)
  {
    if ops != [] {
      var before := ops[..|ops| - 1];
      AnswersBalance(t, before);
      StepCount(t, before);
      AwaitedAreSteps(t, before);
      var mid, op := Run(t, before), ops[|ops| - 1];
      StepAwaits(mid, op);
      BalanceNext(SentSteps(t, before, t.expiresAt), SentBy(mid, op, t.expiresAt), AnsweredSteps(t, before),
                  AnsweredBy(mid, op), mid.awaited, Step(mid, op).awaited);
    }
  }

  lemma {:induction false} PreparationsBalance(t: Tx, ops: seq<Op>)
    requires t.preparing == [] && t.awaited == []
    ensures BegunPreparations(t, ops, t.expiresAt) == EndedPreparations(t, ops) + multiset(Run(t, ops).preparing)
  {
    if ops != [] {
      var before := ops[..|ops| - 1];
      PreparationsBalance(t, before);
      StepCount(t, before);
      AwaitedAreSteps(t, before);
      var mid, op := Run(t, before), ops[|ops| - 1];
      StepPrepares(mid, op);
      PreparingNext(BegunPreparations(t, before, t.expiresAt), BegunBy(mid, op, t.expiresAt),
                    EndedPreparations(t, before), EndedBy(mid, op), mid.preparing, Step(mid, op).preparing);
    }
  }

  /**
   In every run what was sent is what the accepted approvals name, in order, and each of it is either
   answered or awaited; and each preparation begun is either over or awaited.
   */
  lemma CallsAreAccountedFor(count: nat, ttl: Option<int>, start: int, ops: seq<Op>)
    ensures var t0, d := Created(count, ttl, start), Deadline(ttl, start); var t := Run(t0, ops);
      && t.submitted == SentSteps(t0, ops, d)
      && multiset(t.submitted) == AnsweredSteps(t0, ops) + multiset(t.awaited)
      && BegunPreparations(t0, ops, d) == EndedPreparations(t0, ops) + multiset(t.preparing)
  {
    var t0 := Created(count, ttl, start);
    CreatedFacts(count, ttl, start);
    SentAreSent(t0, ops);
    AnswersBalance(t0, ops);
    PreparationsBalance(t0, ops);
  }
}
