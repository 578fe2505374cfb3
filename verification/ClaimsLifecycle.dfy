/**
 The life of insurance claims: the repository with its audit trail, the dispute manager and the
 service on top of them (oracle/src/claims/claim-repository.ts, dispute-manager.ts,
 claims-service.ts).

 Submission and verification await the oracle, so each is a step up to the await and a step for the
 answer, and other calls come in between.  A claim is one object however often it is looked up: the
 repository's store holds references, and evicting a claim from the store does not end the object.
 */
module ClaimsLifecycle {
  import opened LastTouch
  import opened Options

  // randomUUID: never empty, never repeated
  type Id = nat

  datatype Status = Pending | Verifying | Approved | Rejected | PaidOut | Disputed | PendingManual | Cancelled

  datatype HistoryEntry = HistoryEntry(from: Option<Status>, to: Status, actor: string)

  datatype Claim = Claim(claimant: string, status: Status, history: seq<HistoryEntry>,
                         payoutTransactionHash: Option<string>)

  datatype Resolution = ResolveApproved | ResolveRejected | Escalated

  datatype Dispute = Dispute(disputant: string, resolution: Option<Resolution>)

  /** What oracle verification answers. */
  datatype Answer = OracleUnavailable | VerificationFailed | Passed

  datatype Config = Config(maxEntries: nat, fallbackToPendingManual: bool)

  datatype Error = ClaimNotFound | InvalidStatus | DisputeNotFound | AlreadyResolved

  datatype Reply = Done | Refused(error: Error)

  // ---------------------------------------------------------------------------
  // Repository
  // ---------------------------------------------------------------------------

  /** All claim objects, and the store's keys, least recently used first. */
  datatype Repo = Repo(claims: map<Id, Claim>, store: seq<Id>)

  function Without(store: seq<Id>, id: Id): seq<Id> {
    if store == [] then [] else if store[0] == id then store[1..] else [store[0]] + Without(store[1..], id)
  }

  function Touch(store: seq<Id>, id: Id): seq<Id> {
    if id in store then Without(store, id) + [id] else store
  }

  function Put(cfg: Config, store: seq<Id>, id: Id): seq<Id> {
    Without(if id !in store && |store| >= cfg.maxEntries && store != [] then store[1..] else store, id) + [id]
  }

  function Lookup(r: Repo, id: Id): Option<Claim> {
    if id in r.store && id in r.claims then Some(r.claims[id]) else None
  }

  function Found(r: Repo, id: Id): Repo { r.(store := Touch(r.store, id)) }

  function Saved(cfg: Config, r: Repo, id: Id, c: Claim): Repo {
    Repo(r.claims[id := c], Put(cfg, r.store, id))
  }

  function NewClaim(claimant: string): Claim {
    Claim(claimant, Pending, [HistoryEntry(None, Pending, claimant)], None)
  }

  function Advance(c: Claim, to: Status, actor: string): Claim {
    c.(status := to, history := c.history + [HistoryEntry(Some(c.status), to, actor)])
  }

  function Transition(cfg: Config, r: Repo, id: Id, to: Status, actor: string): Repo {
    match Lookup(r, id)
    case None => Found(r, id)
    case Some(c) => Saved(cfg, Found(r, id), id, Advance(c, to, actor))
  }

  class ClaimRepository {
    const cfg: Config
    var claims: map<Id, Claim>
    var store: seq<Id>

    ghost function Model(): Repo
      reads this
    {
      Repo(claims, store)
    }

    constructor (cfg: Config)
      ensures this.cfg == cfg && Model() == Repo(map[], [])
    {
      this.cfg := cfg;
      claims, store := map[], [];
    }

    method FindById(id: Id) returns (c: Option<Claim>)
      modifies this
      ensures Model() == Found(old(Model()), id) && c == Lookup(old(Model()), id)
    {
      if id !in store {
        return None;
      }
      store := Without(store, id);
      store := store + [id];
      c := if id in claims then Some(claims[id]) else None;
    }

    method Persist(id: Id, claim: Claim)
      modifies this
      ensures Model() == Saved(cfg, old(Model()), id, claim)
    {
      claims := claims[id := claim];
      if id !in store && |store| >= cfg.maxEntries {
        if store != [] {
          store := store[1..];
        }
      }
      store := Without(store, id);
      store := store + [id];
    }

    method Create(id: Id, claimant: string) returns (claim: Claim)
      modifies this
      ensures claim == NewClaim(claimant) && Model() == Saved(cfg, old(Model()), id, claim)
    {
      claim := Claim(claimant, Pending, [HistoryEntry(None, Pending, claimant)], None);
      Persist(id, claim);
    }

    method MoveTo(id: Id, to: Status, actor: string) returns (claim: Option<Claim>)
      modifies this
      ensures Model() == Transition(cfg, old(Model()), id, to, actor)
      ensures claim.Some? <==> Lookup(old(Model()), id).Some?
    {
      var found := FindById(id);
      if found == None {
        return None;
      }
      var c := found.value;
      c := c.(history := c.history + [HistoryEntry(Some(c.status), to, actor)]);
      c := c.(status := to);
      Persist(id, c);
      return Some(c);
    }
  }

  // ---------------------------------------------------------------------------
  // Disputes and the service
  // ---------------------------------------------------------------------------

  /** A call that awaits the oracle's answer about a claim: a submission, or else a re-verification. */
  datatype Flight = Flight(id: Id, submission: bool)

  /** `late` is history: the claims that were not being verified any more when an answer changed them. */
  datatype World = World(repo: Repo, disputes: map<Id, Dispute>, flights: seq<Flight>, late: set<Id>)

  datatype Outcome = Outcome(world: World, reply: Reply)

  function StatusOf(r: Resolution): Status {
    match r
    case ResolveApproved => Approved
    case ResolveRejected => Rejected
    case Escalated => PendingManual
  }

  predicate Disputable(s: Status) { s != Disputed && s != Cancelled && s != PaidOut }

  function OpenDispute(cfg: Config, w: World, id: Id, who: string): Outcome {
    var w1 := w.(repo := Found(w.repo, id));
    match Lookup(w.repo, id)
    case None => Outcome(w1, Refused(ClaimNotFound))
    case Some(c) =>
      if !Disputable(c.status) || id in w.disputes then Outcome(w1, Refused(InvalidStatus))
      else
        Outcome(w.(repo := Transition(cfg, w1.repo, id, Disputed, who),
                   disputes := w.disputes[id := Dispute(who, None)]), Done)
  }

  function ResolveDispute(cfg: Config, w: World, id: Id, r: Resolution, admin: string): Outcome {
    var w1 := w.(repo := Found(w.repo, id));
    match Lookup(w.repo, id)
    case None => Outcome(w1, Refused(ClaimNotFound))
    case Some(c) =>
      if id !in w.disputes then Outcome(w1, Refused(DisputeNotFound))
      else if w.disputes[id].resolution.Some? then Outcome(w1, Refused(AlreadyResolved))
      else if c.status != Disputed then Outcome(w1, Refused(InvalidStatus))
      else
        Outcome(w.(repo := Transition(cfg, w1.repo, id, StatusOf(r), admin),
                   disputes := w.disputes[id := w.disputes[id].(resolution := Some(r))]), Done)
  }

  class DisputeManager {
    const repository: ClaimRepository
    var disputes: map<Id, Dispute>

    constructor (repository: ClaimRepository)
      ensures this.repository == repository && disputes == map[]
    {
      this.repository := repository;
      disputes := map[];
    }

    method Open(id: Id, who: string, ghost w: World) returns (reply: Reply)
      requires w.repo == repository.Model() && w.disputes == disputes
      modifies this, repository
      ensures Outcome(w.(repo := repository.Model(), disputes := disputes), reply) ==
          OpenDispute(repository.cfg, w, id, who)
    {
      var found := repository.FindById(id);
      if found == None { return Refused(ClaimNotFound); }
      var status := found.value.status;
      if status == Disputed || status == Cancelled || status == PaidOut { return Refused(InvalidStatus); }
      if id in disputes { return Refused(InvalidStatus); }
      disputes := disputes[id := Dispute(who, None)];
      var _ := repository.MoveTo(id, Disputed, who);
      return Done;
    }

    method Resolve(id: Id, resolution: Resolution, admin: string, ghost w: World) returns (reply: Reply)
      requires w.repo == repository.Model() && w.disputes == disputes
      modifies this, repository
      ensures Outcome(w.(repo := repository.Model(), disputes := disputes), reply)
           == ResolveDispute(repository.cfg, w, id, resolution, admin)
    {
      var found := repository.FindById(id);
      if found == None { return Refused(ClaimNotFound); }
      if id !in disputes { return Refused(DisputeNotFound); }
      var dispute := disputes[id];
      if dispute.resolution.Some? { return Refused(AlreadyResolved); }
      if found.value.status != Disputed { return Refused(InvalidStatus); }
      disputes := disputes[id := dispute.(resolution := Some(resolution))];
      var _ := repository.MoveTo(id, StatusOf(resolution), admin);
      return Done;
    }
  }

  /** The status a submission ends in after the oracle's answer. */
  function Decision(cfg: Config, a: Answer): Status {
    match a
    case OracleUnavailable => if cfg.fallbackToPendingManual then PendingManual else Rejected
    case VerificationFailed => Rejected
    case Passed => Approved
  }

  /** The status a re-verification ends in. */
  function Recheck(cfg: Config, a: Answer): Status {
    if a == Passed then Approved else if cfg.fallbackToPendingManual then PendingManual else Rejected
  }

  function Submit(cfg: Config, w: World, id: Id, claimant: string, fraud: bool): World {
    var verifying := Transition(cfg, Saved(cfg, w.repo, id, NewClaim(claimant)), id, Verifying, "system");
    if fraud then w.(repo := Transition(cfg, verifying, id, Rejected, "system"))
    else w.(repo := verifying, flights := w.flights + [Flight(id, true)])
  }

  predicate Verifiable(s: Status) { s == Pending || s == PendingManual || s == Verifying }

  function VerifyBegin(cfg: Config, w: World, id: Id): Outcome {
    var w1 := w.(repo := Found(w.repo, id));
    match Lookup(w.repo, id)
    case None => Outcome(w1, Refused(ClaimNotFound))
    case Some(c) =>
      if !Verifiable(c.status) then Outcome(w1, Refused(InvalidStatus))
      else
        Outcome(w.(repo := Transition(cfg, w1.repo, id, Verifying, "system"),
                   flights := w.flights + [Flight(id, false)]), Done)
  }

  function Landed(flights: seq<Flight>, n: nat): seq<Flight>
    requires n < |flights|
  {
    flights[..n] + flights[n + 1..]
  }

  /**
   The continuation of the n-th awaiting call.  A submission fails if its claim was evicted meanwhile;
   a re-verification saves its claim, which puts it back.  Neither looks at the claim's status.
   */
  function Land(cfg: Config, w: World, n: nat, a: Answer): World {
    if n >= |w.flights| then w
    else
      var f, rest := w.flights[n], Landed(w.flights, n);
      if f.id !in w.repo.claims || (f.submission && f.id !in w.repo.store) then w.(flights := rest)
      else
        var c := w.repo.claims[f.id];
        var to := if f.submission then Decision(cfg, a) else Recheck(cfg, a);
        World(Transition(cfg, Saved(cfg, w.repo, f.id, c), f.id, to, "system"), w.disputes, rest,
              if c.status == Verifying then w.late else w.late + {f.id})
  }

  function ProcessPayout(cfg: Config, w: World, id: Id, txHash: string, admin: string): Outcome {
    var w1 := w.(repo := Found(w.repo, id));
    match Lookup(w.repo, id)
    case None => Outcome(w1, Refused(ClaimNotFound))
    case Some(c) =>
      if c.status != Approved then Outcome(w1, Refused(InvalidStatus))
      else
        var saved := Saved(cfg, w1.repo, id, c.(payoutTransactionHash := Some(txHash)));
        Outcome(w.(repo := Transition(cfg, saved, id, PaidOut, admin)), Done)
  }

  class ClaimsService {
    const repository: ClaimRepository
    const disputeManager: DisputeManager
    ghost var flights: seq<Flight>
    ghost var late: set<Id>

    ghost function Model(): World
      reads this, repository, disputeManager
    {
      World(repository.Model(), disputeManager.disputes, flights, late)
    }

    ghost predicate Valid() {
      disputeManager.repository == repository
    }

    constructor (cfg: Config)
      ensures Valid() && repository.cfg == cfg && fresh(repository) && fresh(disputeManager)
      ensures Model() == World(Repo(map[], []), map[], [], {})
    {
      var r := new ClaimRepository(cfg);
      repository := r;
      disputeManager := new DisputeManager(r);
      flights, late := [], {};
    }

    /** submitClaim up to the await of the oracle; a fraudulent claim does not get there. */
    method SubmitClaim(id: Id, claimant: string, fraud: bool)
      requires Valid()
      modifies this, repository
      ensures Model() == Submit(repository.cfg, old(Model()), id, claimant, fraud)
    {
      var claim := repository.Create(id, claimant);
      var _ := repository.MoveTo(id, Verifying, "system");
      if fraud {
        var _ := repository.MoveTo(id, Rejected, "system");
      } else {
        flights := flights + [Flight(id, true)];
      }
    }

    /** submitClaim from the answer on; without the claim it throws. */
    method FinishSubmission(id: Id, answer: Answer, ghost n: nat) returns (threw: bool)
      requires Valid() && n < |flights| && flights[n] == Flight(id, true) && id in repository.claims
      modifies this, repository
      ensures Model() == Land(repository.cfg, old(Model()), n, answer)
      ensures threw == (id !in old(repository.store))
    {
      flights := Landed(flights, n);
      if id !in repository.store {
        return true;
      }
      var claim := repository.claims[id];
      late := if claim.status == Verifying then late else late + {id};
      repository.Persist(id, claim);
      if answer == OracleUnavailable && repository.cfg.fallbackToPendingManual {
        var _ := repository.MoveTo(id, PendingManual, "system");
      } else if answer != Passed {
        var _ := repository.MoveTo(id, Rejected, "system");
      } else {
        var _ := repository.MoveTo(id, Approved, "system");
      }
      return false;
    }

    /** verifyClaim up to the await of the oracle. */
    method VerifyClaim(id: Id) returns (reply: Reply)
      requires Valid()
      modifies this, repository
      ensures Outcome(Model(), reply) == VerifyBegin(repository.cfg, old(Model()), id)
    {
      var found := repository.FindById(id);
      if found == None { return Refused(ClaimNotFound); }
      var status := found.value.status;
      if status != Pending && status != PendingManual && status != Verifying { return Refused(InvalidStatus); }
      var _ := repository.MoveTo(id, Verifying, "system");
      flights := flights + [Flight(id, false)];
      return Done;
    }

    /** verifyClaim from the answer on. */
    method FinishVerification(id: Id, answer: Answer, ghost n: nat)
      requires Valid() && n < |flights| && flights[n] == Flight(id, false) && id in repository.claims
      modifies this, repository
      ensures Model() == Land(repository.cfg, old(Model()), n, answer)
    {
      flights := Landed(flights, n);
      var claim := repository.claims[id];
      late := if claim.status == Verifying then late else late + {id};
      repository.Persist(id, claim);
      if answer != Passed {
        if repository.cfg.fallbackToPendingManual {
          var _ := repository.MoveTo(id, PendingManual, "system");
        } else {
          var _ := repository.MoveTo(id, Rejected, "system");
        }
      } else {
        var _ := repository.MoveTo(id, Approved, "system");
      }
    }

    method Payout(id: Id, txHash: string, admin: string) returns (reply: Reply)
      requires Valid()
      modifies repository
      ensures Outcome(Model(), reply) == ProcessPayout(repository.cfg, old(Model()), id, txHash, admin)
    {
      var found := repository.FindById(id);
      if found == None { return Refused(ClaimNotFound); }
      var claim := found.value;
      if claim.status != Approved { return Refused(InvalidStatus); }
      repository.Persist(id, claim.(payoutTransactionHash := Some(txHash)));
      var _ := repository.MoveTo(id, PaidOut, admin);
      return Done;
    }
  }

  // ---------------------------------------------------------------------------
  // Runs
  // ---------------------------------------------------------------------------

  datatype Op =
    | SubmitOp(id: Id, claimant: string, fraud: bool)
    | VerifyOp(id: Id)
    | LandOp(n: nat, answer: Answer)
    | PayoutOp(id: Id, txHash: string, admin: string)
    | OpenOp(id: Id, who: string)
    | ResolveOp(id: Id, resolution: Resolution, admin: string)
    | FindOp(id: Id)

  function Step(cfg: Config, w: World, op: Op): World {
    match op
    case SubmitOp(id, claimant, fraud) => Submit(cfg, w, id, claimant, fraud)
    case VerifyOp(id) => VerifyBegin(cfg, w, id).world
    case LandOp(n, a) => Land(cfg, w, n, a)
    case PayoutOp(id, tx, admin) => ProcessPayout(cfg, w, id, tx, admin).world
    case OpenOp(id, who) => OpenDispute(cfg, w, id, who).world
    case ResolveOp(id, r, admin) => ResolveDispute(cfg, w, id, r, admin).world
    case FindOp(id) => w.(repo := Found(w.repo, id))
  }

  const Start := World(Repo(map[], []), map[], [], {})

  function RunFrom(cfg: Config, w: World, ops: seq<Op>): World {
    if ops == [] then w else Step(cfg, RunFrom(cfg, w, ops[..|ops| - 1]), ops[|ops| - 1])
  }

  function Run(cfg: Config, ops: seq<Op>): World { RunFrom(cfg, Start, ops) }

  /** No identifier is handed out that a claim has already. */
  ghost predicate FreshIds(cfg: Config, w: World, ops: seq<Op>) {
    ops == [] ||
    (FreshIds(cfg, w, ops[..|ops| - 1]) && Fresh(RunFrom(cfg, w, ops[..|ops| - 1]), ops[|ops| - 1]))
  }

  predicate Fresh(w: World, op: Op) {
    op.SubmitOp? ==> op.id !in w.repo.claims
  }

  // ---------------------------------------------------------------------------
  // The audit trail
  // ---------------------------------------------------------------------------

  /** The moves that can happen at all: the service's and the manager's checks, and answers at any time. */
  predicate Possible(from: Status, to: Status) {
    match to
    case PaidOut => from == Approved
    case Disputed => Disputable(from)
    case Verifying => Verifiable(from)
    case Pending => false
    case Cancelled => false
    case Approved => true
    case Rejected => true
    case PendingManual => true
  }

  /** The moves that happen as long as answers find the claim being verified. */
  predicate Timely(from: Status, to: Status) {
    match from
    case Pending => to == Verifying
    case Verifying => to == Rejected || to == PendingManual || to == Approved || to == Verifying || to == Disputed
    case PendingManual => to == Verifying || to == Disputed
    case Approved => to == PaidOut || to == Disputed
    case Rejected => to == Disputed
    case Disputed => to == Approved || to == Rejected || to == PendingManual
    case PaidOut => false
    case Cancelled => false
  }

  /**
   The history starts at Pending, each entry continues the one before by a possible move, and Disputed
   occurs at most once.
   */
  ghost predicate Trail(h: seq<HistoryEntry>) {
    && h != [] && h[0].from == None && h[0].to == Pending
    && (forall i, j | 0 <= i < j < |h| && j == i + 1 :: h[j].from == Some(h[i].to) && Possible(h[i].to, h[j].to))
    && (forall i, j | 0 <= i < j < |h| :: !(h[i].to == Disputed && h[j].to == Disputed))
  }

  ghost predicate TimelyTrail(h: seq<HistoryEntry>) {
    forall i, j | 0 <= i < j < |h| && j == i + 1 :: Timely(h[i].to, h[j].to)
  }

  ghost predicate EverDisputed(h: seq<HistoryEntry>) {
    exists i :: 0 <= i < |h| && h[i].to == Disputed
  }

  /** One claim's object, given whether a dispute was opened for it and whether an answer came late. */
  ghost predicate ClaimOk(c: Claim, disputed: bool, late: bool) {
    && Trail(c.history) && c.history[|c.history| - 1].to == c.status
    && (EverDisputed(c.history) ==> disputed)
    && (!late ==> TimelyTrail(c.history))
    && (c.status == PaidOut ==> c.payoutTransactionHash.Some?)
  }

  lemma AdvanceKeepsOk(c: Claim, to: Status, actor: string, disputed: bool, late: bool, disputed': bool, late': bool)
    requires ClaimOk(c, disputed, late) && Possible(c.status, to)
    requires late' || (!late && Timely(c.status, to))
    requires (disputed ==> disputed') && (to == Disputed ==> !disputed && disputed')
    requires to == PaidOut ==> c.payoutTransactionHash.Some?
    ensures ClaimOk(Advance(c, to, actor), disputed', late')
  {
    var h, h' := c.history, Advance(c, to, actor).history;
    assert forall i | 0 <= i < |h| :: h'[i] == h[i];
    if EverDisputed(h') && to != Disputed {
      var i :| 0 <= i < |h'| && h'[i].to == Disputed;
      assert h[i].to == Disputed;
    }
    if to == Disputed && exists i :: 0 <= i < |h| && h[i].to == Disputed {
      assert EverDisputed(h);
    }
  }

  /** In a timely trail a payout is entered from Approved only, at most once, and final. */
  lemma PaidOutIsFinal(h: seq<HistoryEntry>, i: nat)
    requires Trail(h) && TimelyTrail(h) && i < |h| && h[i].to == PaidOut
    ensures i == |h| - 1 && h[i].from == Some(Approved)
    ensures forall j | 0 <= j < |h| && h[j].to == PaidOut :: j == i
  {
    assert i > 0 ==> Possible(h[i - 1].to, h[i].to);
    forall j | 0 <= j < |h| && h[j].to == PaidOut
      ensures j == |h| - 1
    {
      assert j + 1 < |h| ==> Timely(h[j].to, h[j + 1].to);
    }
  }

  // ---------------------------------------------------------------------------
  // The store
  // ---------------------------------------------------------------------------

  lemma {:induction false} WithoutFacts(store: seq<Id>, id: Id)
    requires AllDifferent(store)
    ensures AllDifferent(Without(store, id))
    ensures forall x :: x in Without(store, id) <==> x in store && x != id
    ensures |Without(store, id)| == if id in store then |store| - 1 else |store|
  {
    if store != [] && store[0] != id {
      var rest := store[1..];
      WithoutFacts(rest, id);
      assert store == [store[0]] + rest;
      forall i | 0 <= i < |Without(rest, id)|
        ensures Without(rest, id)[i] != store[0]
      {
        assert Without(rest, id)[i] in rest;
      }
    } else if store != [] {
      assert store == [store[0]] + store[1..];
    }
  }

  function Bound(cfg: Config): nat { if cfg.maxEntries == 0 then 1 else cfg.maxEntries }

  ghost predicate StoreOk(cfg: Config, r: Repo) {
    AllDifferent(r.store) && |r.store| <= Bound(cfg) && forall id | id in r.store :: id in r.claims
  }

  lemma TouchFacts(store: seq<Id>, id: Id)
    requires AllDifferent(store)
    ensures AllDifferent(Touch(store, id)) && |Touch(store, id)| == |store|
    ensures forall x :: x in Touch(store, id) <==> x in store
  {
    WithoutFacts(store, id);
  }

  lemma PutFacts(cfg: Config, store: seq<Id>, id: Id)
    requires AllDifferent(store) && |store| <= Bound(cfg)
    ensures AllDifferent(Put(cfg, store, id)) && |Put(cfg, store, id)| <= Bound(cfg)
    ensures id in Put(cfg, store, id)
    ensures forall x :: x in Put(cfg, store, id) ==> x in store || x == id
  {
    var room := if id !in store && |store| >= cfg.maxEntries && store != [] then store[1..] else store;
    assert forall x :: x in room ==> x in store;
    WithoutFacts(room, id);
  }

  /** Only `id` is changed and may newly be stored. */
  ghost predicate OnlyChanges(r: Repo, r': Repo, id: Id) {
    && (forall x | x in r.claims && x != id :: x in r'.claims && r'.claims[x] == r.claims[x])
    && (forall x | x in r'.claims && x != id :: x in r.claims)
    && (forall x | x in r'.store && x != id :: x in r.store)
  }

  lemma FoundFacts(cfg: Config, r: Repo, id: Id)
    requires StoreOk(cfg, r)
    ensures StoreOk(cfg, Found(r, id)) && forall x :: x in Found(r, id).store <==> x in r.store
  {
    TouchFacts(r.store, id);
  }

  lemma SavedFacts(cfg: Config, r: Repo, id: Id, c: Claim)
    requires StoreOk(cfg, r)
    ensures var r' := Saved(cfg, r, id, c);
      StoreOk(cfg, r') && OnlyChanges(r, r', id) && id in r'.store && r'.claims[id] == c
  {
    PutFacts(cfg, r.store, id);
  }

  lemma TransitionFacts(cfg: Config, r: Repo, id: Id, to: Status, actor: string)
    requires StoreOk(cfg, r) && id in r.store
    ensures var r' := Transition(cfg, r, id, to, actor);
      && StoreOk(cfg, r') && OnlyChanges(r, r', id)
      && id in r'.store && r'.claims[id] == Advance(r.claims[id], to, actor)
  {
    FoundFacts(cfg, r, id);
    SavedFacts(cfg, Found(r, id), id, Advance(r.claims[id], to, actor));
  }

  lemma OnlyChangesTwice(a: Repo, b: Repo, c: Repo, id: Id)
    requires OnlyChanges(a, b, id) && OnlyChanges(b, c, id)
    ensures OnlyChanges(a, c, id)
  {
  }

  // ---------------------------------------------------------------------------
  // The invariant of every run
  // ---------------------------------------------------------------------------

  predicate InFlight(flights: seq<Flight>, id: Id) {
    exists f :: f in flights && f.id == id
  }

  ghost predicate Sound(cfg: Config, w: World) {
    && StoreOk(cfg, w.repo)
    && (forall id | id in w.repo.claims :: ClaimOk(w.repo.claims[id], id in w.disputes, id in w.late))
    && (forall id | id in w.repo.claims :: AtRest(w, id, w.repo.claims[id].status))
    && (forall id | id in w.disputes || id in w.late :: id in w.repo.claims)
    && (forall f | f in w.flights :: f.id in w.repo.claims)
  }

  /** A stored claim is being verified only while an answer about it is awaited; none is left Pending. */
  ghost predicate AtRest(w: World, id: Id, s: Status) {
    s != Pending && s != Cancelled && (s == Verifying && id in w.repo.store ==> InFlight(w.flights, id))
  }

  /** A step that changes one claim keeps the others sound. */
  lemma OneClaimChanges(cfg: Config, w: World, w': World, id: Id)
    requires Sound(cfg, w) && StoreOk(cfg, w'.repo) && OnlyChanges(w.repo, w'.repo, id)
    requires forall x | x != id :: (x in w'.disputes <==> x in w.disputes) && (x in w'.late <==> x in w.late)
    requires forall f: Flight | f.id != id :: f in w'.flights <==> f in w.flights
    requires id in w'.repo.claims
    requires ClaimOk(w'.repo.claims[id], id in w'.disputes, id in w'.late) && AtRest(w', id, w'.repo.claims[id].status)
    ensures Sound(cfg, w')
  {
    forall x | x in w'.repo.claims
      ensures ClaimOk(w'.repo.claims[x], x in w'.disputes, x in w'.late)
      ensures AtRest(w', x, w'.repo.claims[x].status)
    {
      if x != id {
        assert ClaimOk(w.repo.claims[x], x in w.disputes, x in w.late);
        StaysAtRest(w, w', x);
      }
    }
  }

  lemma StaysAtRest(w: World, w': World, x: Id)
    requires x in w.repo.claims && AtRest(w, x, w.repo.claims[x].status)
    requires x in w'.repo.store ==> x in w.repo.store
    requires forall f | f in w.flights && f.id == x :: f in w'.flights
    ensures AtRest(w', x, w.repo.claims[x].status)
  {
    if InFlight(w.flights, x) {
      var f :| f in w.flights && f.id == x;
      assert f in w'.flights;
    }
  }

  lemma FindKeepsSound(cfg: Config, w: World, id: Id)
    requires Sound(cfg, w)
    ensures Sound(cfg, w.(repo := Found(w.repo, id)))
  {
    FoundFacts(cfg, w.repo, id);
    var w' := w.(repo := Found(w.repo, id));
    forall x | x in w'.repo.claims
      ensures AtRest(w', x, w'.repo.claims[x].status)
    {
      StaysAtRest(w, w', x);
    }
  }

  lemma SubmitFacts(cfg: Config, r: Repo, id: Id, claimant: string)
    requires StoreOk(cfg, r)
    ensures var r' := Transition(cfg, Saved(cfg, r, id, NewClaim(claimant)), id, Verifying, "system");
      && StoreOk(cfg, r') && OnlyChanges(r, r', id)
      && id in r'.store && r'.claims[id] == Advance(NewClaim(claimant), Verifying, "system")
  {
    var r1 := Saved(cfg, r, id, NewClaim(claimant));
    SavedFacts(cfg, r, id, NewClaim(claimant));
    TransitionFacts(cfg, r1, id, Verifying, "system");
    OnlyChangesTwice(r, r1, Transition(cfg, r1, id, Verifying, "system"), id);
  }

  lemma SubmitKeepsSound(cfg: Config, w: World, id: Id, claimant: string, fraud: bool)
    requires Sound(cfg, w) && id !in w.repo.claims
    ensures Sound(cfg, Submit(cfg, w, id, claimant, fraud))
  {
    var r := Transition(cfg, Saved(cfg, w.repo, id, NewClaim(claimant)), id, Verifying, "system");
    SubmitFacts(cfg, w.repo, id, claimant);
    AdvanceKeepsOk(NewClaim(claimant), Verifying, "system", false, false, false, false);
    var c := Advance(NewClaim(claimant), Verifying, "system");
    if fraud {
      TransitionFacts(cfg, r, id, Rejected, "system");
      OnlyChangesTwice(w.repo, r, Transition(cfg, r, id, Rejected, "system"), id);
      AdvanceKeepsOk(c, Rejected, "system", false, false, false, false);
    } else {
      assert Flight(id, true) in w.flights + [Flight(id, true)];
    }
    OneClaimChanges(cfg, w, Submit(cfg, w, id, claimant, fraud), id);
  }

  lemma FoundMove(cfg: Config, r: Repo, id: Id, to: Status, actor: string)
    requires StoreOk(cfg, r) && id in r.store
    ensures var r' := Transition(cfg, Found(r, id), id, to, actor);
      && StoreOk(cfg, r') && OnlyChanges(r, r', id)
      && id in r'.store && r'.claims[id] == Advance(r.claims[id], to, actor)
  {
    FoundFacts(cfg, r, id);
    TransitionFacts(cfg, Found(r, id), id, to, actor);
  }

  lemma VerifyUnfolds(cfg: Config, w: World, id: Id)
    requires VerifyBegin(cfg, w, id).reply == Done
    ensures id in w.repo.store && id in w.repo.claims && Verifiable(w.repo.claims[id].status)
    ensures VerifyBegin(cfg, w, id).world ==
        w.(repo := Transition(cfg, Found(w.repo, id), id, Verifying, "system"),
           flights := w.flights + [Flight(id, false)])
  {
  }

  lemma VerifyKeepsSound(cfg: Config, w: World, id: Id)
    requires Sound(cfg, w) && VerifyBegin(cfg, w, id).reply == Done
    ensures Sound(cfg, VerifyBegin(cfg, w, id).world)
  {
    VerifyUnfolds(cfg, w, id);
    FoundMove(cfg, w.repo, id, Verifying, "system");
    VerifyingKeepsSound(cfg, w, id, Transition(cfg, Found(w.repo, id), id, Verifying, "system"));
  }

  lemma VerifyingKeepsSound(cfg: Config, w: World, id: Id, r: Repo)
    requires Sound(cfg, w) && id in w.repo.store && id in w.repo.claims && Verifiable(w.repo.claims[id].status)
    requires StoreOk(cfg, r) && OnlyChanges(w.repo, r, id) && id in r.store && id in r.claims
    requires r.claims[id] == Advance(w.repo.claims[id], Verifying, "system")
    ensures Sound(cfg, w.(repo := r, flights := w.flights + [Flight(id, false)]))
  {
    var w' := w.(repo := r, flights := w.flights + [Flight(id, false)]);
    assert AtRest(w, id, w.repo.claims[id].status);
    AdvanceKeepsOk(w.repo.claims[id], Verifying, "system", id in w.disputes, id in w.late, id in w.disputes,
        id in w.late);
    assert Flight(id, false) in w'.flights;
    OneClaimChanges(cfg, w, w', id);
  }

  lemma LandedFlights(flights: seq<Flight>, n: nat)
    requires n < |flights|
    ensures forall f :: f in Landed(flights, n) ==> f in flights
    ensures forall f | f in flights && f != flights[n] :: f in Landed(flights, n)
  {
    forall f | f in flights && f != flights[n]
      ensures f in Landed(flights, n)
    {
      var i :| 0 <= i < |flights| && flights[i] == f;
      assert f == Landed(flights, n)[if i < n then i else i - 1];
    }
  }

  lemma LandFacts(cfg: Config, r: Repo, id: Id, to: Status)
    requires StoreOk(cfg, r) && id in r.claims
    ensures var r' := Transition(cfg, Saved(cfg, r, id, r.claims[id]), id, to, "system");
      && StoreOk(cfg, r') && OnlyChanges(r, r', id)
      && id in r'.store && r'.claims[id] == Advance(r.claims[id], to, "system")
  {
    var r1 := Saved(cfg, r, id, r.claims[id]);
    SavedFacts(cfg, r, id, r.claims[id]);
    TransitionFacts(cfg, r1, id, to, "system");
    OnlyChangesTwice(r, r1, Transition(cfg, r1, id, to, "system"), id);
  }

  lemma LandKeepsSound(cfg: Config, w: World, n: nat, a: Answer)
    requires Sound(cfg, w)
    ensures Sound(cfg, Land(cfg, w, n, a))
  {
    if n < |w.flights| {
      var f, w' := w.flights[n], Land(cfg, w, n, a);
      LandedFlights(w.flights, n);
      if f.submission && f.id !in w.repo.store {
        assert AtRest(w, f.id, w.repo.claims[f.id].status);
        OneClaimChanges(cfg, w, w', f.id);
      } else {
        AnswerKeepsSound(cfg, w, w', f, if f.submission then Decision(cfg, a) else Recheck(cfg, a));
      }
    }
  }

  lemma AnswerKeepsSound(cfg: Config, w: World, w': World, f: Flight, to: Status)
    requires Sound(cfg, w) && f in w.flights && (to == Approved || to == Rejected || to == PendingManual)
    requires w'.repo == Transition(cfg, Saved(cfg, w.repo, f.id, w.repo.claims[f.id]), f.id, to, "system")
    requires w'.disputes == w.disputes
    requires w'.late == if w.repo.claims[f.id].status == Verifying then w.late else w.late + {f.id}
    requires forall g: Flight | g.id != f.id :: g in w'.flights <==> g in w.flights
    requires forall g | g in w'.flights :: g in w.flights
    ensures Sound(cfg, w')
  {
    var c := w.repo.claims[f.id];
    LandFacts(cfg, w.repo, f.id, to);
    AdvanceKeepsOk(c, to, "system", f.id in w.disputes, f.id in w.late, f.id in w.disputes, f.id in w'.late);
    OneClaimChanges(cfg, w, w', f.id);
  }

  lemma PayoutFacts(cfg: Config, r: Repo, id: Id, paid: Claim, admin: string)
    requires StoreOk(cfg, r) && id in r.store
    ensures var r' := Transition(cfg, Saved(cfg, Found(r, id), id, paid), id, PaidOut, admin);
      StoreOk(cfg, r') && OnlyChanges(r, r', id) && id in r'.store && r'.claims[id] == Advance(paid, PaidOut, admin)
  {
    FoundFacts(cfg, r, id);
    var r1 := Saved(cfg, Found(r, id), id, paid);
    SavedFacts(cfg, Found(r, id), id, paid);
    TransitionFacts(cfg, r1, id, PaidOut, admin);
    OnlyChangesTwice(Found(r, id), r1, Transition(cfg, r1, id, PaidOut, admin), id);
  }

  lemma PayoutKeepsSound(cfg: Config, w: World, id: Id, txHash: string, admin: string)
    requires Sound(cfg, w) && ProcessPayout(cfg, w, id, txHash, admin).reply == Done
    ensures Sound(cfg, ProcessPayout(cfg, w, id, txHash, admin).world)
  {
    var paid := w.repo.claims[id].(payoutTransactionHash := Some(txHash));
    PayoutFacts(cfg, w.repo, id, paid, admin);
    AdvanceKeepsOk(paid, PaidOut, admin, id in w.disputes, id in w.late, id in w.disputes, id in w.late);
    OneClaimChanges(cfg, w, ProcessPayout(cfg, w, id, txHash, admin).world, id);
  }

  lemma OpenKeepsSound(cfg: Config, w: World, id: Id, who: string)
    requires Sound(cfg, w) && OpenDispute(cfg, w, id, who).reply == Done
    ensures Sound(cfg, OpenDispute(cfg, w, id, who).world)
  {
    FoundMove(cfg, w.repo, id, Disputed, who);
    assert AtRest(w, id, w.repo.claims[id].status);
    AdvanceKeepsOk(w.repo.claims[id], Disputed, who, false, id in w.late, true, id in w.late);
    OneClaimChanges(cfg, w, OpenDispute(cfg, w, id, who).world, id);
  }

  lemma ResolveKeepsSound(cfg: Config, w: World, id: Id, r: Resolution, admin: string)
    requires Sound(cfg, w) && ResolveDispute(cfg, w, id, r, admin).reply == Done
    ensures Sound(cfg, ResolveDispute(cfg, w, id, r, admin).world)
  {
    FoundMove(cfg, w.repo, id, StatusOf(r), admin);
    AdvanceKeepsOk(w.repo.claims[id], StatusOf(r), admin, true, id in w.late, true, id in w.late);
    OneClaimChanges(cfg, w, ResolveDispute(cfg, w, id, r, admin).world, id);
  }

  lemma StepKeepsSound(cfg: Config, w: World, op: Op)
    requires Sound(cfg, w) && Fresh(w, op)
    ensures Sound(cfg, Step(cfg, w, op))
  {
    if !op.LandOp? { FindKeepsSound(cfg, w, op.id); }
    match op
    case SubmitOp(id, claimant, fraud) => SubmitKeepsSound(cfg, w, id, claimant, fraud);
    case VerifyOp(id) => if VerifyBegin(cfg, w, id).reply == Done { VerifyKeepsSound(cfg, w, id); }
    case LandOp(n, a) => LandKeepsSound(cfg, w, n, a);
    case PayoutOp(id, tx, admin) =>
      if ProcessPayout(cfg, w, id, tx, admin).reply == Done { PayoutKeepsSound(cfg, w, id, tx, admin); }
    case OpenOp(id, who) => if OpenDispute(cfg, w, id, who).reply == Done { OpenKeepsSound(cfg, w, id, who); }
    case ResolveOp(id, r, admin) =>
      if ResolveDispute(cfg, w, id, r, admin).reply == Done { ResolveKeepsSound(cfg, w, id, r, admin); }
    case FindOp(id) =>
  }

  lemma {:induction false} RunKeepsSound(cfg: Config, w: World, ops: seq<Op>)
    requires Sound(cfg, w) && FreshIds(cfg, w, ops)
    ensures Sound(cfg, RunFrom(cfg, w, ops))
  {
    if ops != [] {
      RunKeepsSound(cfg, w, ops[..|ops| - 1]);
      StepKeepsSound(cfg, RunFrom(cfg, w, ops[..|ops| - 1]), ops[|ops| - 1]);
    }
  }

  /**
   In every run, however other calls fall between a verification and its answer, and for every claim
   ever created, stored or evicted: its history starts at Pending, chains each entry to the one
   before and ends at the claim's status; Disputed occurs at most once; PaidOut is entered from
   Approved only and comes with a transaction hash; a stored claim is being verified only while an
   answer is awaited; and unless an answer came when the claim was not being verified any more,
   PaidOut occurs at most once and ends the history.
   */
  lemma EveryTrailIsSound(cfg: Config, ops: seq<Op>, id: Id)
    requires FreshIds(cfg, Start, ops)
    ensures var w := Run(cfg, ops);
      id in w.repo.claims ==>
      var c := w.repo.claims[id]; var h := c.history;
      && h != [] && h[0].from == None && h[0].to == Pending && h[|h| - 1].to == c.status
      && (forall i, j | 0 <= i < j < |h| && j == i + 1 :: h[j].from == Some(h[i].to) && Possible(h[i].to, h[j].to))
      && (forall i, j | 0 <= i < j < |h| :: !(h[i].to == Disputed && h[j].to == Disputed))
      && (c.status == PaidOut ==> c.payoutTransactionHash.Some?)
      && (c.status == Verifying && id in w.repo.store ==> InFlight(w.flights, id))
      && (id !in w.late ==>
            && (forall i, j | 0 <= i < j < |h| && j == i + 1 :: Timely(h[i].to, h[j].to))
            && (forall i | 0 <= i < |h| && h[i].to == PaidOut :: i == |h| - 1 && h[i].from == Some(Approved)))
    ensures |Run(cfg, ops).repo.store| <= if cfg.maxEntries == 0 then 1 else cfg.maxEntries
  {
    RunKeepsSound(cfg, Start, ops);
    var w := Run(cfg, ops);
    if id in w.repo.claims {
      SoundTrail(cfg, w, id);
    }
  }

  lemma SoundTrail(cfg: Config, w: World, id: Id)
    requires Sound(cfg, w) && id in w.repo.claims
    ensures var c := w.repo.claims[id];
      && Trail(c.history) && c.history[|c.history| - 1].to == c.status
      && (c.status == PaidOut ==> c.payoutTransactionHash.Some?)
      && (c.status == Verifying && id in w.repo.store ==> InFlight(w.flights, id))
    ensures var h := w.repo.claims[id].history;
      id !in w.late ==>
        TimelyTrail(h) && forall i | 0 <= i < |h| && h[i].to == PaidOut :: i == |h| - 1 && h[i].from == Some(Approved)
  {
    assert AtRest(w, id, w.repo.claims[id].status);
    var h := w.repo.claims[id].history;
    if id !in w.late {
      forall i | 0 <= i < |h| && h[i].to == PaidOut
        ensures i == |h| - 1 && h[i].from == Some(Approved)
      {
        PaidOutIsFinal(h, i);
      }
    }
  }

  // ---------------------------------------------------------------------------
  // When a payout is final
  // ---------------------------------------------------------------------------

  /** An answer about the claim is awaited that will change it: a re-verification, or a submission of a stored claim. */
  predicate AnswerPending(w: World, id: Id) {
    exists f :: f in w.flights && f.id == id && (!f.submission || id in w.repo.store)
  }

  ghost predicate Settled(cfg: Config, w: World, id: Id, c: Claim) {
    Sound(cfg, w) && c.status == PaidOut && Still(w, id, c)
  }

  ghost predicate Still(w: World, id: Id, c: Claim) {
    id in w.repo.claims && w.repo.claims[id] == c && !AnswerPending(w, id)
  }

  lemma NoAnswerPending(w: World, w': World, x: Id)
    requires !AnswerPending(w, x)
    requires forall f | f in w'.flights && f.id == x :: f in w.flights
    requires x in w'.repo.store ==> x in w.repo.store
    ensures !AnswerPending(w', x)
  {
  }

  lemma OtherStaysSettled(w: World, w': World, id: Id, x: Id, c: Claim)
    requires x != id && OnlyChanges(w.repo, w'.repo, id) && Still(w, x, c)
    requires forall f | f in w'.flights && f.id == x :: f in w.flights
    ensures Still(w', x, c)
  {
    NoAnswerPending(w, w', x);
  }

  lemma FoundStaysSettled(cfg: Config, w: World, id: Id, x: Id, c: Claim)
    requires Settled(cfg, w, x, c)
    ensures Still(w.(repo := Found(w.repo, id)), x, c)
  {
    FoundFacts(cfg, w.repo, id);
    NoAnswerPending(w, w.(repo := Found(w.repo, id)), x);
  }

  lemma SubmitStaysSettled(cfg: Config, w: World, id: Id, claimant: string, fraud: bool, x: Id, c: Claim)
    requires Settled(cfg, w, x, c) && id !in w.repo.claims
    ensures Still(Submit(cfg, w, id, claimant, fraud), x, c)
  {
    var r := Transition(cfg, Saved(cfg, w.repo, id, NewClaim(claimant)), id, Verifying, "system");
    SubmitFacts(cfg, w.repo, id, claimant);
    if fraud {
      TransitionFacts(cfg, r, id, Rejected, "system");
      OnlyChangesTwice(w.repo, r, Transition(cfg, r, id, Rejected, "system"), id);
    }
    OtherStaysSettled(w, Submit(cfg, w, id, claimant, fraud), id, x, c);
  }

  lemma VerifyStaysSettled(cfg: Config, w: World, id: Id, x: Id, c: Claim)
    requires Settled(cfg, w, x, c)
    ensures Still(VerifyBegin(cfg, w, id).world, x, c)
  {
    if VerifyBegin(cfg, w, id).reply == Done {
      FoundMove(cfg, w.repo, id, Verifying, "system");
      OtherStaysSettled(w, VerifyBegin(cfg, w, id).world, id, x, c);
    } else {
      FoundStaysSettled(cfg, w, id, x, c);
    }
  }

  lemma LandStaysSettled(cfg: Config, w: World, n: nat, a: Answer, x: Id, c: Claim)
    requires Settled(cfg, w, x, c)
    ensures Still(Land(cfg, w, n, a), x, c)
  {
    if n < |w.flights| {
      var f, w' := w.flights[n], Land(cfg, w, n, a);
      LandedFlights(w.flights, n);
      assert f in w.flights;
      if f.submission && f.id !in w.repo.store {
        NoAnswerPending(w, w', x);
      } else {
        LandFacts(cfg, w.repo, f.id, if f.submission then Decision(cfg, a) else Recheck(cfg, a));
        OtherStaysSettled(w, w', f.id, x, c);
      }
    }
  }

  lemma PayoutStaysSettled(cfg: Config, w: World, id: Id, tx: string, admin: string, x: Id, c: Claim)
    requires Settled(cfg, w, x, c)
    ensures Still(ProcessPayout(cfg, w, id, tx, admin).world, x, c)
  {
    if ProcessPayout(cfg, w, id, tx, admin).reply == Done {
      PayoutFacts(cfg, w.repo, id, w.repo.claims[id].(payoutTransactionHash := Some(tx)), admin);
      OtherStaysSettled(w, ProcessPayout(cfg, w, id, tx, admin).world, id, x, c);
    } else {
      FoundStaysSettled(cfg, w, id, x, c);
    }
  }

  lemma OpenStaysSettled(cfg: Config, w: World, id: Id, who: string, x: Id, c: Claim)
    requires Settled(cfg, w, x, c)
    ensures Still(OpenDispute(cfg, w, id, who).world, x, c)
  {
    if OpenDispute(cfg, w, id, who).reply == Done {
      FoundMove(cfg, w.repo, id, Disputed, who);
      OtherStaysSettled(w, OpenDispute(cfg, w, id, who).world, id, x, c);
    } else {
      FoundStaysSettled(cfg, w, id, x, c);
    }
  }

  lemma ResolveStaysSettled(cfg: Config, w: World, id: Id, r: Resolution, admin: string, x: Id, c: Claim)
    requires Settled(cfg, w, x, c)
    ensures Still(ResolveDispute(cfg, w, id, r, admin).world, x, c)
  {
    if ResolveDispute(cfg, w, id, r, admin).reply == Done {
      FoundMove(cfg, w.repo, id, StatusOf(r), admin);
      OtherStaysSettled(w, ResolveDispute(cfg, w, id, r, admin).world, id, x, c);
    } else {
      FoundStaysSettled(cfg, w, id, x, c);
    }
  }

  lemma StepStaysSettled(cfg: Config, w: World, op: Op, x: Id, c: Claim)
    requires Settled(cfg, w, x, c) && Fresh(w, op)
    ensures Settled(cfg, Step(cfg, w, op), x, c)
  {
    StepKeepsSound(cfg, w, op);
    match op
    case SubmitOp(id, claimant, fraud) => SubmitStaysSettled(cfg, w, id, claimant, fraud, x, c);
    case VerifyOp(id) => VerifyStaysSettled(cfg, w, id, x, c);
    case LandOp(n, a) => LandStaysSettled(cfg, w, n, a, x, c);
    case PayoutOp(id, tx, admin) => PayoutStaysSettled(cfg, w, id, tx, admin, x, c);
    case OpenOp(id, who) => OpenStaysSettled(cfg, w, id, who, x, c);
    case ResolveOp(id, r, admin) => ResolveStaysSettled(cfg, w, id, r, admin, x, c);
    case FindOp(id) => FoundStaysSettled(cfg, w, id, x, c);
  }

  lemma {:induction false} RunStaysSettled(cfg: Config, w: World, ops: seq<Op>, x: Id, c: Claim)
    requires Settled(cfg, w, x, c) && FreshIds(cfg, w, ops)
    ensures Settled(cfg, RunFrom(cfg, w, ops), x, c)
  {
    if ops != [] {
      RunStaysSettled(cfg, w, ops[..|ops| - 1], x, c);
      StepStaysSettled(cfg, RunFrom(cfg, w, ops[..|ops| - 1]), ops[|ops| - 1], x, c);
    }
  }

  /**
   When a payout is final, exactly: after any run that leaves a claim paid out, some continuation
   changes the claim if and only if an answer about it is still awaited that finds it.
   */
  lemma PaidOutFinalExactly(cfg: Config, ops: seq<Op>, id: Id)
    requires FreshIds(cfg, Start, ops)
    requires id in Run(cfg, ops).repo.claims && Run(cfg, ops).repo.claims[id].status == PaidOut
    ensures var w := Run(cfg, ops);
      (exists more :: Changes(cfg, w, more, id, w.repo.claims[id])) <==> AnswerPending(w, id)
  {
    RunKeepsSound(cfg, Start, ops);
    FinalExactly(cfg, Run(cfg, ops), id);
  }

  lemma FinalExactly(cfg: Config, w: World, id: Id)
    requires Sound(cfg, w) && id in w.repo.claims && w.repo.claims[id].status == PaidOut
    ensures (exists more :: Changes(cfg, w, more, id, w.repo.claims[id])) <==> AnswerPending(w, id)
  {
    var c := w.repo.claims[id];
    if AnswerPending(w, id) {
      var more := AnswerChanges(cfg, w, id);
      assert Changes(cfg, w, more, id, c);
    } else {
      forall more
        ensures !Changes(cfg, w, more, id, c)
      {
        NothingChanges(cfg, w, more, id, c);
      }
    }
  }

  /** A continuation, with fresh identifiers, after which the claim is not `c` any more. */
  ghost predicate Changes(cfg: Config, w: World, more: seq<Op>, id: Id, c: Claim) {
    FreshIds(cfg, w, more)
    && var claims := RunFrom(cfg, w, more).repo.claims; id !in claims || claims[id] != c
  }

  lemma NothingChanges(cfg: Config, w: World, more: seq<Op>, id: Id, c: Claim)
    requires Settled(cfg, w, id, c)
    ensures !Changes(cfg, w, more, id, c)
  {
    if FreshIds(cfg, w, more) { RunStaysSettled(cfg, w, more, id, c); }
  }

  lemma AnswerChanges(cfg: Config, w: World, id: Id) returns (more: seq<Op>)
    requires Sound(cfg, w) && id in w.repo.claims && w.repo.claims[id].status == PaidOut && AnswerPending(w, id)
    ensures Changes(cfg, w, more, id, w.repo.claims[id])
  {
    var f :| f in w.flights && f.id == id && (!f.submission || id in w.repo.store);
    var n :| 0 <= n < |w.flights| && w.flights[n] == f;
    LandMoves(cfg, w, n, id);
    more := OneMore(cfg, w, [], LandOp(n, Passed));
  }

  lemma LandMoves(cfg: Config, w: World, n: nat, id: Id)
    requires Sound(cfg, w) && id in w.repo.claims && n < |w.flights| && w.flights[n].id == id
    requires !w.flights[n].submission || id in w.repo.store
    ensures var w' := Land(cfg, w, n, Passed); id in w'.repo.claims && w'.repo.claims[id].status == Approved
  {
    LandFacts(cfg, w.repo, id, Approved);
  }

  /** The world with claim 0 only, stored. */
  ghost predicate Lone(w: World, c: Claim, flights: seq<Flight>) {
    w.repo == Repo(map[0 := c], [0]) && w.flights == flights
  }

  lemma LoneMove(cfg: Config, r: Repo, c: Claim, to: Status, actor: string)
    requires r == Repo(map[0 := c], [0])
    ensures Found(r, 0) == r && Saved(cfg, r, 0, c) == r
    ensures Transition(cfg, r, 0, to, actor) == Repo(map[0 := Advance(c, to, actor)], [0])
  {
    assert Without([0], 0) == [];
    assert Touch([0], 0) == [0] && Put(cfg, [0], 0) == [0];
    assert map[0 := c][0 := Advance(c, to, actor)] == map[0 := Advance(c, to, actor)];
    assert map[0 := c][0 := c] == map[0 := c];
  }

  lemma LoneSubmit(cfg: Config)
    ensures Lone(Step(cfg, Start, SubmitOp(0, "a", false)), Advance(NewClaim("a"), Verifying, "system"),
        [Flight(0, true)])
  {
    assert Put(cfg, [], 0) == [0];
    assert map[][0 := NewClaim("a")] == map[0 := NewClaim("a")];
    LoneMove(cfg, Repo(map[0 := NewClaim("a")], [0]), NewClaim("a"), Verifying, "system");
  }

  lemma LoneVerify(cfg: Config, w: World, c: Claim, flights: seq<Flight>)
    requires Lone(w, c, flights) && Verifiable(c.status)
    ensures Lone(Step(cfg, w, VerifyOp(0)), Advance(c, Verifying, "system"), flights + [Flight(0, false)])
  {
    LoneMove(cfg, w.repo, c, Verifying, "system");
  }

  lemma LoneLand(cfg: Config, w: World, c: Claim, f: Flight, rest: seq<Flight>, a: Answer)
    requires Lone(w, c, [f] + rest) && f.id == 0
    ensures var to := if f.submission then Decision(cfg, a) else Recheck(cfg, a);
      Lone(Step(cfg, w, LandOp(0, a)), Advance(c, to, "system"), rest)
  {
    assert Landed([f] + rest, 0) == rest;
    LoneMove(cfg, w.repo, c, if f.submission then Decision(cfg, a) else Recheck(cfg, a), "system");
  }

  lemma LonePayout(cfg: Config, w: World, c: Claim, flights: seq<Flight>)
    requires Lone(w, c, flights) && c.status == Approved
    ensures var paid := c.(payoutTransactionHash := Some("x"));
      Lone(Step(cfg, w, PayoutOp(0, "x", "a")), Advance(paid, PaidOut, "a"), flights)
  {
    var paid := c.(payoutTransactionHash := Some("x"));
    LoneMove(cfg, w.repo, c, PaidOut, "a");
    assert map[0 := c][0 := paid] == map[0 := paid];
    assert Put(cfg, [0], 0) == [0];
    LoneMove(cfg, Repo(map[0 := paid], [0]), paid, PaidOut, "a");
  }

  lemma UntilBothVerify(cfg: Config) returns (ops: seq<Op>, c: Claim)
    requires cfg.fallbackToPendingManual
    ensures FreshIds(cfg, Start, ops) && Lone(RunFrom(cfg, Start, ops), c, [Flight(0, false), Flight(0, false)])
  {
    LoneSubmit(cfg);
    ops := OneMore(cfg, Start, [], SubmitOp(0, "a", false));
    c := Advance(NewClaim("a"), Verifying, "system");
    assert [Flight(0, true)] + [] == [Flight(0, true)];
    LoneLand(cfg, RunFrom(cfg, Start, ops), c, Flight(0, true), [], OracleUnavailable);
    ops := OneMore(cfg, Start, ops, LandOp(0, OracleUnavailable));
    c := Advance(c, PendingManual, "system");
    LoneVerify(cfg, RunFrom(cfg, Start, ops), c, []);
    ops := OneMore(cfg, Start, ops, VerifyOp(0));
    c := Advance(c, Verifying, "system");
    LoneVerify(cfg, RunFrom(cfg, Start, ops), c, [] + [Flight(0, false)]);
    ops := OneMore(cfg, Start, ops, VerifyOp(0));
    c := Advance(c, Verifying, "system");
    assert [] + [Flight(0, false)] + [Flight(0, false)] == [Flight(0, false), Flight(0, false)];
  }

  lemma PassAndPay(cfg: Config, ops: seq<Op>, c: Claim, rest: seq<Flight>) returns (ops': seq<Op>, c': Claim)
    requires FreshIds(cfg, Start, ops) && Lone(RunFrom(cfg, Start, ops), c, [Flight(0, false)] + rest)
    ensures FreshIds(cfg, Start, ops') && Lone(RunFrom(cfg, Start, ops'), c', rest)
    ensures |c'.history| == |c.history| + 2 && c'.history[..|c.history|] == c.history
    ensures c'.history[|c.history| + 1].to == PaidOut
  {
    LoneLand(cfg, RunFrom(cfg, Start, ops), c, Flight(0, false), rest, Passed);
    ops' := OneMore(cfg, Start, ops, LandOp(0, Passed));
    c' := Advance(c, Approved, "system");
    LonePayout(cfg, RunFrom(cfg, Start, ops'), c', rest);
    ops' := OneMore(cfg, Start, ops', PayoutOp(0, "x", "a"));
    c' := Advance(c'.(payoutTransactionHash := Some("x")), PaidOut, "a");
  }

  /** Two verifications of one claim overlap, and the claim is paid out twice. */
  lemma PaidTwice(cfg: Config) returns (ops: seq<Op>, c: Claim, i: nat, j: nat)
    requires cfg.fallbackToPendingManual
    ensures FreshIds(cfg, Start, ops) && 0 in Run(cfg, ops).repo.claims && Run(cfg, ops).repo.claims[0] == c
    ensures i < j < |c.history| && c.history[i].to == PaidOut && c.history[j].to == PaidOut
  {
    ops, c := UntilBothVerify(cfg);
    assert [Flight(0, false), Flight(0, false)] == [Flight(0, false)] + [Flight(0, false)];
    i := |c.history| + 1;
    ops, c := PassAndPay(cfg, ops, c, [Flight(0, false)]);
    j := |c.history| + 1;
    var before := c.history;
    assert [Flight(0, false)] == [Flight(0, false)] + [];
    ops, c := PassAndPay(cfg, ops, c, []);
    assert c.history[..|before|][i] == before[i];
  }

  lemma OneMore(cfg: Config, w: World, ops: seq<Op>, op: Op) returns (ops': seq<Op>)
    requires FreshIds(cfg, w, ops) && Fresh(RunFrom(cfg, w, ops), op)
    ensures FreshIds(cfg, w, ops') && RunFrom(cfg, w, ops') == Step(cfg, RunFrom(cfg, w, ops), op)
  {
    ops' := ops + [op];
    assert ops'[..|ops|] == ops;
  }
}
