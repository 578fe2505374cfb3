/**
 Which operation moves an insurance claim where, what each call replies, and in which order the store
 evicts (oracle/src/claims/claim-repository.ts, dispute-manager.ts, claims-service.ts).
 */
module ClaimsHistory {
  import opened ClaimsLifecycle
  import opened LastTouch
  import opened Options

  // ---------------------------------------------------------------------------
  // Moves
  // ---------------------------------------------------------------------------

  /** The answer to the n-th awaiting call reaches claim `id`. */
  predicate Reaches(w: World, n: nat, id: Id) {
    n < |w.flights| && w.flights[n].id == id && (w.flights[n].submission ==> id in w.repo.store)
  }

  /** The operation, made in `w`, moves the existing claim `id` to status `to`. */
  predicate Moves(cfg: Config, w: World, op: Op, id: Id, to: Status)
    requires id in w.repo.claims
  {
    var status, stored := w.repo.claims[id].status, id in w.repo.store;
    match op
    case SubmitOp(_, _, _) => false
    case FindOp(_) => false
    case VerifyOp(x) =>
      && x == id && stored && to == Verifying
      && (status == Pending || status == PendingManual || status == Verifying)
    case LandOp(n, a) => Reaches(w, n, id) && AnswerMoves(cfg, w.flights[n].submission, a, to)
    case PayoutOp(x, _, _) => x == id && stored && to == PaidOut && status == Approved
    case OpenOp(x, _) =>
      && x == id && stored && to == Disputed && id !in w.disputes
      && (status == Pending || status == Verifying || status == Approved || status == Rejected ||
          status == PendingManual)
    case ResolveOp(x, r, _) =>
      && x == id && stored && status == Disputed
      && id in w.disputes && w.disputes[id].resolution == None && ResolutionMoves(r, to)
  }

  /** What the oracle's answer to a submission or a re-verification decides. */
  predicate AnswerMoves(cfg: Config, submission: bool, a: Answer, to: Status) {
    match to
    case Approved => a == Passed
    case PendingManual =>
      cfg.fallbackToPendingManual && (a == OracleUnavailable || (a == VerificationFailed && !submission))
    case Rejected =>
      || (a == VerificationFailed && (submission || !cfg.fallbackToPendingManual))
      || (a == OracleUnavailable && !cfg.fallbackToPendingManual)
    case _ => false
  }

  predicate ResolutionMoves(r: Resolution, to: Status) {
    match to
    case Approved => r == ResolveApproved
    case Rejected => r == ResolveRejected
    case PendingManual => r == Escalated
    case _ => false
  }

  /** Whose name the move gets in the audit trail. */
  function Actor(op: Op): string {
    match op
    case PayoutOp(_, _, admin) => admin
    case OpenOp(_, who) => who
    case ResolveOp(_, _, admin) => admin
    case _ => "system"
  }

  /** The claim after the operation is as it was, or moved to `to` with one more entry in its history. */
  ghost predicate Moved(c: Claim, c': Claim, op: Op, to: Status) {
    && c'.claimant == c.claimant && c'.status == to
    && c'.history == c.history + [HistoryEntry(Some(c.status), to, Actor(op))]
    && c'.payoutTransactionHash == if op.PayoutOp? then Some(op.txHash) else c.payoutTransactionHash
  }

  ghost predicate Follows(cfg: Config, w: World, op: Op, id: Id, w': World)
    requires id in w.repo.claims
  {
    && id in w'.repo.claims
    && (forall to | Moves(cfg, w, op, id, to) :: Moved(w.repo.claims[id], w'.repo.claims[id], op, to))
    && ((forall to :: !Moves(cfg, w, op, id, to)) ==> w'.repo.claims[id] == w.repo.claims[id])
  }

  /** No operation moves a claim two ways. */
  lemma MovesOneWay(cfg: Config, w: World, op: Op, id: Id, a: Status, b: Status)
    requires id in w.repo.claims && Moves(cfg, w, op, id, a) && Moves(cfg, w, op, id, b)
    ensures a == b
  {
  }

  lemma FollowsMove(cfg: Config, w: World, op: Op, id: Id, w': World, to: Status)
    requires id in w.repo.claims && id in w'.repo.claims
    requires Moves(cfg, w, op, id, to) && Moved(w.repo.claims[id], w'.repo.claims[id], op, to)
    ensures Follows(cfg, w, op, id, w')
  {
    forall b | Moves(cfg, w, op, id, b)
      ensures b == to
    {
      MovesOneWay(cfg, w, op, id, to, b);
    }
  }

  lemma FollowsStaying(cfg: Config, w: World, op: Op, id: Id, w': World)
    requires id in w.repo.claims && id in w'.repo.claims && w'.repo.claims[id] == w.repo.claims[id]
    requires forall to :: !Moves(cfg, w, op, id, to)
    ensures Follows(cfg, w, op, id, w')
  {
  }

  /** The claim an operation is about. */
  predicate About(w: World, op: Op, id: Id) {
    if op.LandOp? then op.n < |w.flights| && w.flights[op.n].id == id else op.id == id
  }

  ghost predicate SameObject(r: Repo, r': Repo, id: Id) {
    (id in r'.claims <==> id in r.claims) && (id in r.claims ==> r'.claims[id] == r.claims[id])
  }

  /** No operation touches the object of any other claim. */
  lemma OthersStay(cfg: Config, w: World, op: Op, id: Id)
    requires Sound(cfg, w) && Fresh(w, op) && !About(w, op, id)
    ensures SameObject(w.repo, Step(cfg, w, op).repo, id)
  {
    match op
    case SubmitOp(_, _, _) => OthersStayOnSubmit(cfg, w, op, id);
    case LandOp(_, _) => OthersStayOnAnswer(cfg, w, op, id);
    case PayoutOp(x, tx, admin) =>
      if x in w.repo.store {
        PayoutFacts(cfg, w.repo, x, w.repo.claims[x].(payoutTransactionHash := Some(tx)), admin);
      }
    case VerifyOp(x) => if x in w.repo.store { FoundMove(cfg, w.repo, x, Verifying, "system"); }
    case OpenOp(_, _) => OthersStayOnOpening(cfg, w, op, id);
    case ResolveOp(_, _, _) => OthersStayOnResolving(cfg, w, op, id);
    case FindOp(_) =>
  }

  lemma OthersStayOnSubmit(cfg: Config, w: World, op: Op, id: Id)
    requires Sound(cfg, w) && Fresh(w, op) && op.SubmitOp? && op.id != id
    ensures SameObject(w.repo, Step(cfg, w, op).repo, id)
  {
    SubmitFacts(cfg, w.repo, op.id, op.claimant);
    var r := Transition(cfg, Saved(cfg, w.repo, op.id, NewClaim(op.claimant)), op.id, Verifying, "system");
    if op.fraud { TransitionFacts(cfg, r, op.id, Rejected, "system"); }
  }

  lemma OthersStayOnAnswer(cfg: Config, w: World, op: Op, id: Id)
    requires Sound(cfg, w) && op.LandOp? && !About(w, op, id)
    ensures SameObject(w.repo, Step(cfg, w, op).repo, id)
  {
    if op.n < |w.flights| {
      var f := w.flights[op.n];
      LandFacts(cfg, w.repo, f.id, if f.submission then Decision(cfg, op.answer) else Recheck(cfg, op.answer));
    }
  }

  lemma OthersStayOnOpening(cfg: Config, w: World, op: Op, id: Id)
    requires Sound(cfg, w) && op.OpenOp? && op.id != id
    ensures SameObject(w.repo, Step(cfg, w, op).repo, id)
  {
    if op.id in w.repo.store {
      OpenedExactly(cfg, w, op);
      LookingStays(cfg, w.repo, op.id, Disputed, op.who, Step(cfg, w, op).repo, id);
    }
  }

  lemma OthersStayOnResolving(cfg: Config, w: World, op: Op, id: Id)
    requires Sound(cfg, w) && op.ResolveOp? && op.id != id
    ensures SameObject(w.repo, Step(cfg, w, op).repo, id)
  {
    if op.id in w.repo.store {
      ResolvedExactly(cfg, w, op);
      LookingStays(cfg, w.repo, op.id, StatusOf(op.resolution), op.admin, Step(cfg, w, op).repo, id);
    }
  }

  lemma LookingStays(cfg: Config, r: Repo, x: Id, to: Status, actor: string, r': Repo, id: Id)
    requires StoreOk(cfg, r) && x in r.store && id != x
    requires r' == Found(r, x) || r' == Transition(cfg, Found(r, x), x, to, actor)
    ensures SameObject(r, r', id)
  {
    FoundMove(cfg, r, x, to, actor);
    FoundFacts(cfg, r, x);
  }

  lemma NotAboutStays(cfg: Config, w: World, op: Op, id: Id)
    requires Sound(cfg, w) && Fresh(w, op) && id in w.repo.claims && !About(w, op, id)
    ensures Follows(cfg, w, op, id, Step(cfg, w, op))
  {
    OthersStay(cfg, w, op, id);
    FollowsStaying(cfg, w, op, id, Step(cfg, w, op));
  }

  /** In every sound world each operation moves each claim exactly as `Moves` says. */
  lemma MovesExactly(cfg: Config, w: World, op: Op, id: Id)
    requires Sound(cfg, w) && Fresh(w, op) && id in w.repo.claims
    ensures Follows(cfg, w, op, id, Step(cfg, w, op))
  {
    if !About(w, op, id) {
      NotAboutStays(cfg, w, op, id);
      return;
    }
    match op
    case SubmitOp(x, claimant, fraud) =>
    case FindOp(x) => FollowsStaying(cfg, w, op, id, Step(cfg, w, op));
    case VerifyOp(x) => VerifyMoves(cfg, w, op, id);
    case LandOp(n, a) => LandMovesExactly(cfg, w, op, id);
    case PayoutOp(x, tx, admin) => PayoutMoves(cfg, w, op, id);
    case OpenOp(x, who) => OpenMoves(cfg, w, op, id);
    case ResolveOp(x, r, admin) => ResolveMoves(cfg, w, op, id);
  }

  lemma VerifyMoves(cfg: Config, w: World, op: Op, id: Id)
    requires Sound(cfg, w) && id in w.repo.claims && op.VerifyOp? && op.id == id
    ensures Follows(cfg, w, op, id, Step(cfg, w, op))
  {
    if op.id in w.repo.store { FoundMove(cfg, w.repo, op.id, Verifying, "system"); }
    if Moves(cfg, w, op, id, Verifying) {
      FollowsMove(cfg, w, op, id, Step(cfg, w, op), Verifying);
    } else {
      FollowsStaying(cfg, w, op, id, Step(cfg, w, op));
    }
  }

  lemma OpenMoves(cfg: Config, w: World, op: Op, id: Id)
    requires Sound(cfg, w) && id in w.repo.claims && op.OpenOp? && op.id == id
    ensures Follows(cfg, w, op, id, Step(cfg, w, op))
  {
    OpenedExactly(cfg, w, op);
    if Moves(cfg, w, op, id, Disputed) {
      FoundMove(cfg, w.repo, id, Disputed, op.who);
      FollowsMove(cfg, w, op, id, Step(cfg, w, op), Disputed);
    } else {
      FollowsStaying(cfg, w, op, id, Step(cfg, w, op));
    }
  }

  lemma OpenedExactly(cfg: Config, w: World, op: Op)
    requires op.OpenOp? && op.id in w.repo.claims
    ensures var o := OpenDispute(cfg, w, op.id, op.who);
      && (o.reply == Done <==> Moves(cfg, w, op, op.id, Disputed))
      && (o.reply == Done ==> o.world.repo == Transition(cfg, Found(w.repo, op.id), op.id, Disputed, op.who))
      && (o.reply != Done ==> o.world.repo == Found(w.repo, op.id))
      && (forall b | Moves(cfg, w, op, op.id, b) :: b == Disputed)
  {
  }

  lemma ResolveMoves(cfg: Config, w: World, op: Op, id: Id)
    requires Sound(cfg, w) && id in w.repo.claims && op.ResolveOp? && op.id == id
    ensures Follows(cfg, w, op, id, Step(cfg, w, op))
  {
    var to := StatusOf(op.resolution);
    ResolvedExactly(cfg, w, op);
    if Moves(cfg, w, op, id, to) {
      FoundMove(cfg, w.repo, id, to, op.admin);
      FollowsMove(cfg, w, op, id, Step(cfg, w, op), to);
    } else {
      FollowsStaying(cfg, w, op, id, Step(cfg, w, op));
    }
  }

  lemma ResolvedExactly(cfg: Config, w: World, op: Op)
    requires op.ResolveOp? && op.id in w.repo.claims
    ensures var o, to := ResolveDispute(cfg, w, op.id, op.resolution, op.admin), StatusOf(op.resolution);
      && (o.reply == Done <==> Moves(cfg, w, op, op.id, to))
      && (o.reply == Done ==> o.world.repo == Transition(cfg, Found(w.repo, op.id), op.id, to, op.admin))
      && (o.reply != Done ==> o.world.repo == Found(w.repo, op.id))
      && (forall b | Moves(cfg, w, op, op.id, b) :: b == to)
  {
  }

  lemma PayoutMoves(cfg: Config, w: World, op: Op, id: Id)
    requires Sound(cfg, w) && id in w.repo.claims && op.PayoutOp? && op.id == id
    ensures Follows(cfg, w, op, id, Step(cfg, w, op))
  {
    if op.id in w.repo.store {
      PayoutFacts(cfg, w.repo, op.id, w.repo.claims[op.id].(payoutTransactionHash := Some(op.txHash)), op.admin);
    }
    if Moves(cfg, w, op, id, PaidOut) {
      FollowsMove(cfg, w, op, id, Step(cfg, w, op), PaidOut);
    } else {
      FollowsStaying(cfg, w, op, id, Step(cfg, w, op));
    }
  }

  lemma LandMovesExactly(cfg: Config, w: World, op: Op, id: Id)
    requires Sound(cfg, w) && id in w.repo.claims && op.LandOp? && op.n < |w.flights| && w.flights[op.n].id == id
    ensures Follows(cfg, w, op, id, Step(cfg, w, op))
  {
    var f := w.flights[op.n];
    var to := if f.submission then Decision(cfg, op.answer) else Recheck(cfg, op.answer);
    LandFacts(cfg, w.repo, f.id, to);
    if Reaches(w, op.n, id) {
      AnswerDecides(cfg, f.submission, op.answer, to);
      FollowsMove(cfg, w, op, id, Step(cfg, w, op), to);
    } else {
      FollowsStaying(cfg, w, op, id, Step(cfg, w, op));
    }
  }

  lemma AnswerDecides(cfg: Config, submission: bool, a: Answer, to: Status)
    requires to == if submission then Decision(cfg, a) else Recheck(cfg, a)
    ensures AnswerMoves(cfg, submission, a, to)
  {
  }

  /** The history of a new claim when its submission awaits the oracle, or was found fraudulent. */
  ghost predicate AsSubmitted(c: Claim, claimant: string, fraud: bool) {
    var start := [HistoryEntry(None, Pending, claimant), HistoryEntry(Some(Pending), Verifying, "system")];
    && c.claimant == claimant && c.payoutTransactionHash == None
    && c.status == (if fraud then Rejected else Verifying)
    && c.history == start + if fraud then [HistoryEntry(Some(Verifying), Rejected, "system")] else []
  }

  /** A claim comes into being only by its submission, with the entries made up to the await. */
  lemma CreatedExactly(cfg: Config, w: World, op: Op, id: Id)
    requires Sound(cfg, w) && Fresh(w, op) && id !in w.repo.claims
    ensures var w' := Step(cfg, w, op);
      && (id in w'.repo.claims <==> op.SubmitOp? && op.id == id)
      && (id in w'.repo.claims ==> AsSubmitted(w'.repo.claims[id], op.claimant, op.fraud))
  {
    if op.SubmitOp? { SubmitCreates(cfg, w, op); } else { NothingElseCreates(cfg, w, op, id); }
  }

  lemma SubmitCreates(cfg: Config, w: World, op: Op)
    requires Sound(cfg, w) && op.SubmitOp? && Fresh(w, op)
    ensures var w' := Step(cfg, w, op);
      && w'.repo.claims.Keys == w.repo.claims.Keys + {op.id}
      && AsSubmitted(w'.repo.claims[op.id], op.claimant, op.fraud)
  {
    SubmitFacts(cfg, w.repo, op.id, op.claimant);
    var r := Transition(cfg, Saved(cfg, w.repo, op.id, NewClaim(op.claimant)), op.id, Verifying, "system");
    if op.fraud { TransitionFacts(cfg, r, op.id, Rejected, "system"); }
  }

  lemma NothingElseCreates(cfg: Config, w: World, op: Op, id: Id)
    requires Sound(cfg, w) && Fresh(w, op) && !op.SubmitOp? && id !in w.repo.claims
    ensures id !in Step(cfg, w, op).repo.claims
  {
    if About(w, op, id) {
      assert !op.LandOp? ==> id !in w.repo.store;
    } else {
      OthersStay(cfg, w, op, id);
    }
  }

  // ---------------------------------------------------------------------------
  // Every entry of every history
  // ---------------------------------------------------------------------------

  /** The operation, made in `w`, is why the history of `id` has an entry to `to`. */
  ghost predicate Causes(cfg: Config, w: World, op: Op, id: Id, to: Status) {
    if id in w.repo.claims then Moves(cfg, w, op, id, to)
    else op.SubmitOp? && op.id == id && (to == Pending || to == Verifying || (to == Rejected && op.fraud))
  }

  ghost predicate CausedAt(cfg: Config, ops: seq<Op>, k: int, id: Id, to: Status) {
    0 <= k < |ops| && Causes(cfg, Run(cfg, ops[..k]), ops[k], id, to)
  }

  ghost predicate Caused(cfg: Config, ops: seq<Op>, id: Id, to: Status) {
    exists k :: CausedAt(cfg, ops, k, id, to)
  }

  lemma StillCaused(cfg: Config, before: seq<Op>, op: Op, id: Id, to: Status)
    ensures Caused(cfg, before, id, to) ==> Caused(cfg, before + [op], id, to)
    ensures Causes(cfg, Run(cfg, before), op, id, to) ==> Caused(cfg, before + [op], id, to)
  {
    var ops, n := before + [op], |before|;
    assert ops[..n] == before && ops[n] == op;
    if Causes(cfg, Run(cfg, before), op, id, to) { assert CausedAt(cfg, ops, n, id, to); }
    if Caused(cfg, before, id, to) {
      var k :| CausedAt(cfg, before, k, id, to);
      assert ops[..k] == before[..k] && ops[k] == before[k];
      assert CausedAt(cfg, ops, k, id, to);
    }
  }

  ghost predicate AllCaused(cfg: Config, ops: seq<Op>, id: Id, h: seq<HistoryEntry>) {
    forall i | 0 <= i < |h| :: Caused(cfg, ops, id, h[i].to)
  }

  lemma StepCauses(cfg: Config, before: seq<Op>, op: Op, id: Id)
    requires Sound(cfg, Run(cfg, before)) && Fresh(Run(cfg, before), op)
    requires var w := Run(cfg, before); id in w.repo.claims ==> AllCaused(cfg, before, id, w.repo.claims[id].history)
    ensures var w' := Step(cfg, Run(cfg, before), op);
      id in w'.repo.claims ==> AllCaused(cfg, before + [op], id, w'.repo.claims[id].history)
  {
    var w := Run(cfg, before);
    var w' := Step(cfg, w, op);
    forall to
      ensures Caused(cfg, before, id, to) || Causes(cfg, w, op, id, to) ==> Caused(cfg, before + [op], id, to)
    {
      StillCaused(cfg, before, op, id, to);
    }
    if id in w.repo.claims {
      MovesExactly(cfg, w, op, id);
    } else {
      CreatedExactly(cfg, w, op, id);
    }
  }

  lemma {:induction false} HistoryCaused(cfg: Config, ops: seq<Op>, id: Id)
    requires FreshIds(cfg, Start, ops)
    ensures var w := Run(cfg, ops); id in w.repo.claims ==> AllCaused(cfg, ops, id, w.repo.claims[id].history)
  {
    if ops != [] {
      var before, op := ops[..|ops| - 1], ops[|ops| - 1];
      assert ops == before + [op];
      HistoryCaused(cfg, before, id);
      RunKeepsSound(cfg, Start, before);
      StepCauses(cfg, before, op, id);
    }
  }

  /**
   In every run, every status in the history of every claim was entered because of an operation of the
   run that enters it.
   */
  lemma EveryEntryHasCause(cfg: Config, ops: seq<Op>, id: Id, i: nat)
    requires FreshIds(cfg, Start, ops)
    requires var w := Run(cfg, ops); id in w.repo.claims && i < |w.repo.claims[id].history|
    ensures exists k ::
      0 <= k < |ops| && Causes(cfg, Run(cfg, ops[..k]), ops[k], id, Run(cfg, ops).repo.claims[id].history[i].to)
  {
    HistoryCaused(cfg, ops, id);
    var k :| CausedAt(cfg, ops, k, id, Run(cfg, ops).repo.claims[id].history[i].to);
  }

  /** The oracle passed the claim, or a dispute about it was resolved in its favour. */
  ghost predicate Grants(w: World, op: Op, id: Id) {
    || (op.LandOp? && op.answer == Passed && op.n < |w.flights| && w.flights[op.n].id == id)
    || (op.ResolveOp? && op.id == id && op.resolution == ResolveApproved)
  }

  /** A claim is approved or paid out only in a run in which the oracle passed it or a dispute favoured it. */
  lemma NothingApprovedUngranted(cfg: Config, ops: seq<Op>, id: Id)
    requires FreshIds(cfg, Start, ops) && id in Run(cfg, ops).repo.claims
    requires var s := Run(cfg, ops).repo.claims[id].status; s == Approved || s == PaidOut
    ensures exists k :: 0 <= k < |ops| && Grants(Run(cfg, ops[..k]), ops[k], id)
  {
    var i := ApprovalInHistory(cfg, ops, id);
    EveryEntryHasCause(cfg, ops, id, i);
    var k :| 0 <= k < |ops| && Causes(cfg, Run(cfg, ops[..k]), ops[k], id, Approved);
    ApprovalIsGranted(cfg, Run(cfg, ops[..k]), ops[k], id);
  }

  lemma ApprovalInHistory(cfg: Config, ops: seq<Op>, id: Id) returns (i: nat)
    requires FreshIds(cfg, Start, ops) && id in Run(cfg, ops).repo.claims
    requires var s := Run(cfg, ops).repo.claims[id].status; s == Approved || s == PaidOut
    ensures var h := Run(cfg, ops).repo.claims[id].history; i < |h| && h[i].to == Approved
  {
    RunKeepsSound(cfg, Start, ops);
    SoundTrail(cfg, Run(cfg, ops), id);
    i := ApprovalInTrail(Run(cfg, ops).repo.claims[id].history);
  }

  lemma ApprovalInTrail(h: seq<HistoryEntry>) returns (i: nat)
    requires Trail(h) && (h[|h| - 1].to == Approved || h[|h| - 1].to == PaidOut)
    ensures i < |h| && h[i].to == Approved
  {
    i := |h| - 1;
    if h[i].to == PaidOut {
      assert Possible(h[i - 1].to, h[i].to);
      i := i - 1;
    }
  }

  lemma ApprovalIsGranted(cfg: Config, w: World, op: Op, id: Id)
    requires Causes(cfg, w, op, id, Approved)
    ensures Grants(w, op, id)
  {
  }

  // ---------------------------------------------------------------------------
  // Replies, disputes and awaiting calls
  // ---------------------------------------------------------------------------

  /** What the calls that can refuse reply: Done exactly when they move the claim. */
  lemma RepliesExactly(cfg: Config, w: World, id: Id, who: string, tx: string)
    requires Sound(cfg, w)
    ensures var verify, pay := VerifyBegin(cfg, w, id).reply, ProcessPayout(cfg, w, id, tx, who).reply;
      if id !in w.repo.store then verify == pay == Refused(ClaimNotFound)
      else
        && verify == (if Moves(cfg, w, VerifyOp(id), id, Verifying) then Done else Refused(InvalidStatus))
        && pay == (if Moves(cfg, w, PayoutOp(id, tx, who), id, PaidOut) then Done else Refused(InvalidStatus))
  {
  }

  lemma DisputeRepliesExactly(cfg: Config, w: World, id: Id, who: string, r: Resolution)
    requires Sound(cfg, w)
    ensures var open, resolve := OpenDispute(cfg, w, id, who).reply, ResolveDispute(cfg, w, id, r, who).reply;
      if id !in w.repo.store then open == resolve == Refused(ClaimNotFound)
      else
        && open == (if Moves(cfg, w, OpenOp(id, who), id, Disputed) then Done else Refused(InvalidStatus))
        && (resolve == Refused(DisputeNotFound) <==> id !in w.disputes)
        && (resolve == Refused(AlreadyResolved) <==> id in w.disputes && w.disputes[id].resolution != None)
        && (resolve == Done <==> exists to :: Moves(cfg, w, ResolveOp(id, r, who), id, to))
        && resolve != Refused(ClaimNotFound)
  {
    if id in w.repo.store {
      assert AtRest(w, id, w.repo.claims[id].status);
      ResolvedExactly(cfg, w, ResolveOp(id, r, who));
    }
  }

  /** Disputes change only by the operations that move a claim that way. */
  lemma DisputesFollow(cfg: Config, w: World, op: Op)
    requires Sound(cfg, w)
    ensures Step(cfg, w, op).disputes ==
      if op.OpenOp? && op.id in w.repo.store && Moves(cfg, w, op, op.id, Disputed)
      then w.disputes[op.id := Dispute(op.who, None)]
      else if op.ResolveOp? && op.id in w.repo.store && (exists to :: Moves(cfg, w, op, op.id, to))
      then w.disputes[op.id := Dispute(w.disputes[op.id].disputant, Some(op.resolution))]
      else w.disputes
  {
    if op.OpenOp? {
      DisputesAfterOpening(cfg, w, op);
    } else if op.ResolveOp? {
      DisputesAfterResolving(cfg, w, op);
    }
  }

  lemma DisputesAfterOpening(cfg: Config, w: World, op: Op)
    requires Sound(cfg, w) && op.OpenOp?
    ensures Step(cfg, w, op).disputes ==
      if op.id in w.repo.store && Moves(cfg, w, op, op.id, Disputed) then w.disputes[op.id := Dispute(op.who, None)]
      else w.disputes
  {
    if op.id in w.repo.store { assert AtRest(w, op.id, w.repo.claims[op.id].status); }
  }

  lemma DisputesAfterResolving(cfg: Config, w: World, op: Op)
    requires Sound(cfg, w) && op.ResolveOp?
    ensures Step(cfg, w, op).disputes ==
      if op.id in w.repo.store && (exists to :: Moves(cfg, w, op, op.id, to))
      then w.disputes[op.id := Dispute(w.disputes[op.id].disputant, Some(op.resolution))]
      else w.disputes
  {
    if op.id in w.repo.store { ResolvedExactly(cfg, w, op); }
  }

  /** So do the calls that await the oracle. */
  lemma AwaitsFollow(cfg: Config, w: World, op: Op)
    requires Sound(cfg, w)
    ensures Step(cfg, w, op).flights ==
      if op.SubmitOp? && !op.fraud then w.flights + [Flight(op.id, true)]
      else if op.VerifyOp? && op.id in w.repo.store && Moves(cfg, w, op, op.id, Verifying)
      then w.flights + [Flight(op.id, false)]
      else if op.LandOp? && op.n < |w.flights| then w.flights[..op.n] + w.flights[op.n + 1..]
      else w.flights
  {
  }

  // ---------------------------------------------------------------------------
  // Who is evicted
  // ---------------------------------------------------------------------------

  /** The claim the operation looks up with success or saves. */
  function Used(w: World, op: Op): Option<Id> {
    match op
    case SubmitOp(id, _, _) => Some(id)
    case LandOp(n, _) => if n < |w.flights| && Reaches(w, n, w.flights[n].id) then Some(w.flights[n].id) else None
    case _ => if op.id in w.repo.store then Some(op.id) else None
  }

  function UseLog(cfg: Config, ops: seq<Op>): seq<Id> {
    if ops == [] then []
    else
      var used := Used(Run(cfg, ops[..|ops| - 1]), ops[|ops| - 1]);
      UseLog(cfg, ops[..|ops| - 1]) + if used.Some? then [used.value] else []
  }

  ghost predicate InUseOrder(store: seq<Id>, log: seq<Id>) {
    && (forall i | 0 <= i < |store| :: LastIn(log, store[i]) >= 0)
    && (forall i, j | 0 <= i < j < |store| :: LastIn(log, store[i]) < LastIn(log, store[j]))
  }

  lemma {:induction false} WithoutAbsent(s: seq<Id>, id: Id)
    requires id !in s
    ensures Without(s, id) == s && Without(s + [id], id) == s
  {
    if s != [] {
      WithoutAbsent(s[1..], id);
      assert (s + [id])[1..] == s[1..] + [id];
      assert [s[0]] + s[1..] == s;
    }
  }

  /** Looking up or saving a claim again changes nothing more. */
  lemma PutSettles(cfg: Config, store: seq<Id>, id: Id)
    requires AllDifferent(store) && |store| <= Bound(cfg)
    ensures var s := Put(cfg, store, id); Touch(s, id) == s && Put(cfg, s, id) == s
    ensures id in store ==> Touch(store, id) == Put(cfg, store, id)
  {
    var room := if id !in store && |store| >= cfg.maxEntries && store != [] then store[1..] else store;
    assert forall x :: x in room ==> x in store;
    WithoutFacts(room, id);
    WithoutAbsent(Without(room, id), id);
  }

  lemma TransitionStore(cfg: Config, r: Repo, id: Id, to: Status, actor: string)
    requires StoreOk(cfg, r)
    ensures Transition(cfg, r, id, to, actor).store == if id in r.store then Put(cfg, r.store, id) else r.store
  {
    PutSettles(cfg, r.store, id);
  }

  lemma SavedStore(cfg: Config, r: Repo, id: Id, c: Claim)
    requires StoreOk(cfg, r)
    ensures var r' := Saved(cfg, r, id, c); StoreOk(cfg, r') && r'.store == Put(cfg, r.store, id) && id in r'.store
    ensures Put(cfg, Put(cfg, r.store, id), id) == Put(cfg, r.store, id)
  {
    SavedFacts(cfg, r, id, c);
    PutSettles(cfg, r.store, id);
  }

  lemma FoundStore(cfg: Config, r: Repo, id: Id)
    requires StoreOk(cfg, r)
    ensures StoreOk(cfg, Found(r, id))
    ensures Found(r, id).store == if id in r.store then Put(cfg, r.store, id) else r.store
    ensures id in r.store ==> id in Found(r, id).store && Put(cfg, Put(cfg, r.store, id), id) == Put(cfg, r.store, id)
  {
    FoundFacts(cfg, r, id);
    PutSettles(cfg, r.store, id);
  }

  /** Every operation uses one claim at most, once or several times over. */
  lemma StepStore(cfg: Config, w: World, op: Op)
    requires Sound(cfg, w) && Fresh(w, op)
    ensures Step(cfg, w, op).repo.store ==
      match Used(w, op)
      case Some(id) => Put(cfg, w.repo.store, id)
      case None => w.repo.store
  {
    match op
    case SubmitOp(id, claimant, fraud) => SubmitStore(cfg, w.repo, id, claimant);
    case LandOp(n, a) => AnswerStore(cfg, w, n, a);
    case PayoutOp(id, tx, admin) => PayoutStore(cfg, w, id, tx, admin);
    case VerifyOp(id) => MoveStore(cfg, w.repo, id, Verifying, "system");
    case OpenOp(id, who) => MoveStore(cfg, w.repo, id, Disputed, who);
    case ResolveOp(id, r, admin) => ResolveStore(cfg, w, op);
    case FindOp(id) => FoundStore(cfg, w.repo, id);
  }

  lemma ResolveStore(cfg: Config, w: World, op: Op)
    requires Sound(cfg, w) && op.ResolveOp?
    ensures Step(cfg, w, op).repo.store == if op.id in w.repo.store then Put(cfg, w.repo.store, op.id) else w.repo.store
  {
    MoveStore(cfg, w.repo, op.id, StatusOf(op.resolution), op.admin);
  }

  lemma SubmitStore(cfg: Config, r: Repo, id: Id, claimant: string)
    requires StoreOk(cfg, r)
    ensures var r2 := Transition(cfg, Saved(cfg, r, id, NewClaim(claimant)), id, Verifying, "system");
      r2.store == Put(cfg, r.store, id) && Transition(cfg, r2, id, Rejected, "system").store == r2.store
  {
    var r1 := Saved(cfg, r, id, NewClaim(claimant));
    SavedStore(cfg, r, id, NewClaim(claimant));
    TransitionStore(cfg, r1, id, Verifying, "system");
    TransitionFacts(cfg, r1, id, Verifying, "system");
    TransitionStore(cfg, Transition(cfg, r1, id, Verifying, "system"), id, Rejected, "system");
  }

  lemma MoveStore(cfg: Config, r: Repo, id: Id, to: Status, actor: string)
    requires StoreOk(cfg, r)
    ensures var s := if id in r.store then Put(cfg, r.store, id) else r.store;
      Found(r, id).store == s && Transition(cfg, Found(r, id), id, to, actor).store == s
  {
    FoundStore(cfg, r, id);
    TransitionStore(cfg, Found(r, id), id, to, actor);
  }

  lemma PayoutStore(cfg: Config, w: World, id: Id, tx: string, admin: string)
    requires Sound(cfg, w)
    ensures ProcessPayout(cfg, w, id, tx, admin).world.repo.store ==
        if id in w.repo.store then Put(cfg, w.repo.store, id) else w.repo.store
  {
    FoundStore(cfg, w.repo, id);
    if id in w.repo.store {
      var paid := w.repo.claims[id].(payoutTransactionHash := Some(tx));
      SavedStore(cfg, Found(w.repo, id), id, paid);
      TransitionStore(cfg, Saved(cfg, Found(w.repo, id), id, paid), id, PaidOut, admin);
    }
  }

  lemma AnswerStore(cfg: Config, w: World, n: nat, a: Answer)
    requires Sound(cfg, w)
    ensures Land(cfg, w, n, a).repo.store ==
        if n < |w.flights| && Reaches(w, n, w.flights[n].id) then Put(cfg, w.repo.store, w.flights[n].id)
        else w.repo.store
  {
    if n < |w.flights| {
      var f := w.flights[n];
      var to := if f.submission then Decision(cfg, a) else Recheck(cfg, a);
      SavedStore(cfg, w.repo, f.id, w.repo.claims[f.id]);
      TransitionStore(cfg, Saved(cfg, w.repo, f.id, w.repo.claims[f.id]), f.id, to, "system");
    }
  }

  lemma {:induction false} WithoutSplits(store: seq<Id>, id: Id) returns (i: nat)
    ensures i <= |store| && |Without(store, id)| == if i < |store| then |store| - 1 else |store|
    ensures forall j | 0 <= j < |Without(store, id)| :: Without(store, id)[j] == store[if j < i then j else j + 1]
  {
    i := 0;
    if store != [] && store[0] != id {
      i := WithoutSplits(store[1..], id);
      i := i + 1;
    }
  }

  lemma WithoutKeepsUseOrder(store: seq<Id>, log: seq<Id>, id: Id)
    requires InUseOrder(store, log)
    ensures InUseOrder(Without(store, id), log)
  {
    var i := WithoutSplits(store, id);
  }

  lemma TailKeepsUseOrder(store: seq<Id>, log: seq<Id>)
    requires InUseOrder(store, log) && store != []
    ensures InUseOrder(store[1..], log)
  {
  }

  lemma UsedLast(store: seq<Id>, log: seq<Id>, id: Id)
    requires InUseOrder(store, log) && id !in store
    ensures InUseOrder(store + [id], log + [id])
  {
    assert (log + [id])[..|log|] == log;
    forall i | 0 <= i < |store|
      ensures LastIn(log + [id], store[i]) == LastIn(log, store[i])
    {
      assert store[i] in store;
    }
  }

  lemma PutKeepsUseOrder(cfg: Config, store: seq<Id>, log: seq<Id>, id: Id)
    requires AllDifferent(store) && InUseOrder(store, log)
    ensures InUseOrder(Put(cfg, store, id), log + [id])
  {
    var room := if id !in store && |store| >= cfg.maxEntries && store != [] then store[1..] else store;
    if store != [] { TailKeepsUseOrder(store, log); }
    WithoutFacts(room, id);
    WithoutKeepsUseOrder(room, log, id);
    UsedLast(Without(room, id), log, id);
  }

  /** In every run the store lists its claims in the order in which they were last looked up or saved. */
  lemma {:induction false} StoreOrderIsUseOrder(cfg: Config, ops: seq<Op>)
    requires FreshIds(cfg, Start, ops)
    ensures InUseOrder(Run(cfg, ops).repo.store, UseLog(cfg, ops))
  {
    if ops != [] {
      var before, op := ops[..|ops| - 1], ops[|ops| - 1];
      StoreOrderIsUseOrder(cfg, before);
      RunKeepsSound(cfg, Start, before);
      var w := Run(cfg, before);
      StepStore(cfg, w, op);
      assert UseLog(cfg, before) + [] == UseLog(cfg, before);
      if Used(w, op).Some? { PutKeepsUseOrder(cfg, w.repo.store, UseLog(cfg, before), Used(w, op).value); }
    }
  }

  /**
   Who is evicted, exactly: after any run, an operation pushes a claim out of the store if and only if
   it saves one that is not stored, the store is full, and every other stored claim was used later.
   */
  lemma EvictsLeastRecentlyUsed(cfg: Config, ops: seq<Op>, op: Op, x: Id)
    requires FreshIds(cfg, Start, ops) && Fresh(Run(cfg, ops), op) && x in Run(cfg, ops).repo.store
    ensures var w, log := Run(cfg, ops), UseLog(cfg, ops);
      x !in Step(cfg, w, op).repo.store <==>
        && Used(w, op).Some? && Used(w, op).value !in w.repo.store && |w.repo.store| >= cfg.maxEntries
        && forall y | y in w.repo.store && y != x :: LastIn(log, x) < LastIn(log, y)
  {
    var w := Run(cfg, ops);
    RunKeepsSound(cfg, Start, ops);
    StoreOrderIsUseOrder(cfg, ops);
    StepStore(cfg, w, op);
    if Used(w, op).Some? { PutEvictsFirst(cfg, w.repo.store, Used(w, op).value, x); }
    OldestIsFirst(w.repo.store, UseLog(cfg, ops), x);
  }

  lemma PutEvictsFirst(cfg: Config, store: seq<Id>, id: Id, x: Id)
    requires AllDifferent(store) && x in store
    ensures x !in Put(cfg, store, id) <==> id !in store && |store| >= cfg.maxEntries && x == store[0]
  {
    var room := if id !in store && |store| >= cfg.maxEntries && store != [] then store[1..] else store;
    WithoutFacts(room, id);
    assert store == [store[0]] + store[1..];
  }

  lemma OldestIsFirst(store: seq<Id>, log: seq<Id>, x: Id)
    requires InUseOrder(store, log) && x in store
    ensures x == store[0] <==> forall y | y in store && y != x :: LastIn(log, x) < LastIn(log, y)
  {
    var i :| 0 <= i < |store| && store[i] == x;
    if i > 0 {
      assert LastIn(log, store[0]) < LastIn(log, store[i]);
      assert store[0] in store;
    } else {
      forall y | y in store && y != x
        ensures LastIn(log, x) < LastIn(log, y)
      {
        var j :| 0 <= j < |store| && store[j] == y;
      }
    }
  }
}
