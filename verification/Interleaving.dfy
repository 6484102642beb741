/**
 Many transactions interleaved statement by statement. Each one takes its
 locks, reads what other transactions have committed, checks, and writes
 everything at commit; locks are held until then. Reads of different statements
 may be separated by any number of other transactions' steps.
 */
module Interleaving {
  import opened Wrappers
  import opened CourtModel
  import opened CourtInvariant

  type TxId = nat

  // ---- locks ----------------------------------------------------------------

  datatype Lock = ClubRow | Username(name: nat) | CourtKey(court: int) | PassKey(pass: PassId)

  function Class(l: Lock): nat {
    match l case ClubRow => 0 case Username(_) => 1 case CourtKey(_) => 2 case PassKey(_) => 3
  }

  /** The global lock order: club row, usernames, courts ascending, passes ascending. */
  predicate Before(a: Lock, b: Lock) {
    if Class(a) != Class(b) then Class(a) < Class(b)
    else
      match a
      case ClubRow => false
      case Username(n) => n < b.name
      case CourtKey(c) => c < b.court
      case PassKey(x) => x < b.pass
  }

  predicate IsFirst(l: Lock, want: set<Lock>) {
    l in want && forall m :: m in want && m != l ==> Before(l, m)
  }

  lemma {:induction false} FirstExists(want: set<Lock>)
    requires want != {}
    ensures exists l :: IsFirst(l, want)
  {
    var m :| m in want;
    if want != {m} {
      FirstExists(want - {m});
      var l :| IsFirst(l, want - {m});
      var first := if Before(l, m) then l else m;
      forall k | k in want && k != first ensures Before(first, k) {
        assert k == m || k in want - {m};
      }
      assert IsFirst(first, want);
    } else {
      assert IsFirst(m, want);
    }
  }

  // ---- transactions ---------------------------------------------------------

  datatype Job =
    | OnCourt(req: Request)
    | Resizing(n: nat)
    | Revoking(pass: PassId)
    | Signing(name: nat)

  /** Entering takes the first lock and reads; Planned holds or takes its batch, checks and commits. */
  datatype Stage = Entering | Planned | Doomed

  datatype Tx = Tx(
    job: Job, now: int, minutes: nat, depth: int, autoExtend: bool,
    stage: Stage,
    all: set<Lock>,       // every lock it holds or still wants
    want: set<Lock>,      // the ones it still wants
    view: Court, seenRow: bool, seenSession: bool, seenQueue: bool,
    known: map<PassId, bool>,  // passes whose validity it read
    notQueued: set<PassId>, notPlaying: set<PassId>,
    count: nat, noGames: bool)

  datatype System = System(club: Club, usable: set<PassId>, txs: map<TxId, Tx>, owner: map<Lock, TxId>)

  function ReadsOf(tx: Tx): Reads {
    Reads(tx.now, tx.minutes, tx.depth, tx.autoExtend, set x | x in tx.known && tx.known[x])
  }

  predicate Holds(owner: map<Lock, TxId>, t: TxId, l: Lock) {
    l in owner && owner[l] == t
  }

  /** A court action as a kiosk, the engine or an admin submits it. */
  ghost predicate Proper(job: Job) {
    job.OnCourt? ==> DistinctParty(job.req)
  }

  predicate CourtJob(job: Job) {
    job.OnCourt? && !job.req.Resize? && AllowedSize(job.req)
  }

  function OwnErrors(req: Request): seq<CredError> {
    if Places(req) then req.party.errors else []
  }

  /** What the transaction decides from its own reads alone. */
  function Decision(tx: Tx): Outcome<Court>
    requires CourtJob(tx.job)
  {
    ActOn(tx.view, tx.job.req, OwnErrors(tx.job.req), ReadsOf(tx))
  }

  /** It has read the validity of every pass its decision depends on. */
  predicate Informed(tx: Tx)
    requires CourtJob(tx.job)
  {
    var queue, k := tx.view.queue, FirstUsable(tx.view.queue, ReadsOf(tx).usable);
    tx.job.req.Expire? || tx.job.req.LeaveCourt? ==>
      && (forall i :: 0 <= i < |queue| && i <= k ==> queue[i] <= tx.known.Keys)
      && (tx.job.req.Expire? ==> Players(tx.view) <= tx.known.Keys)
  }

  /** The passes locked in one sorted batch. */
  function Batch(ct: Court, req: Request, r: Reads): set<PassId> {
    var k := FirstUsable(ct.queue, r.usable);
    var promoted := if k < |ct.queue| && PromoteNext(ct, r).moved then ct.queue[k] else {};
    match req
    case Take(_, party) => Passes(party.holders)
    case Join(_, party) => Passes(party.holders)
    case Enqueue(_, party) => Passes(party.holders)
    case LeaveQueue(_, party) => Passes(party.holders)
    case LeaveCourt(_, party) =>
      Passes(party.holders) + if |Players(ct)| - |party.holders| == 2 then {} else promoted
    case Expire(_) => promoted
    case _ => {}
  }

  function PassKeys(xs: set<PassId>): set<Lock> {
    set x | x in xs :: PassKey(x)
  }

  function CourtKeys(cs: set<int>): set<Lock> {
    set c | c in cs :: CourtKey(c)
  }

  function FirstLocks(job: Job): set<Lock> {
    match job
    case OnCourt(req) => if req.Resize? then {} else {CourtKey(req.court)}
    case Resizing(_) => {ClubRow}
    case Revoking(_) => {}
    case Signing(name) => {Username(name)}
  }

  // ---- statements -----------------------------------------------------------

  /** Statements between the locks and the commit; each sees what is committed when it runs. */
  datatype Statement =
    | ReadRow
    | ReadSession
    | ReadQueue
    | ReadPass(x: PassId)
    | Plan
    | CheckQueue(x: PassId)
    | CheckCourt(x: PassId)
    | ReadCount
    | CheckGames
    | FindPlaces(courts: set<int>)

  datatype Action =
    | Begin(t: TxId, job: Job, now: int, minutes: nat, depth: int, autoExtend: bool)
    | Acquire(t: TxId, l: Lock)
    | Execute(t: TxId, st: Statement)
    | Commit(t: TxId)
    | Abort(t: TxId)
    | ChangePasses(usable: set<PassId>)

  /** The statement is this transaction's turn; it waits for no lock. */
  predicate Ready(tx: Tx, st: Statement) {
    && tx.want == {}
    && match st
       case ReadRow => tx.stage == Entering && CourtJob(tx.job) && !tx.seenRow
       case ReadSession => tx.stage == Entering && CourtJob(tx.job) && !tx.seenSession
       case ReadQueue => tx.stage == Entering && CourtJob(tx.job) && !tx.seenQueue
       case ReadPass(x) => tx.stage == Entering && CourtJob(tx.job) && x !in tx.known
       case Plan =>
         && tx.stage == Entering && CourtJob(tx.job) && tx.seenRow && tx.seenSession && tx.seenQueue
         && Informed(tx)
       case CheckQueue(x) =>
         tx.stage == Planned && CourtJob(tx.job) && x in Newcomers(tx.job.req) && x !in tx.notQueued
       case CheckCourt(x) => tx.stage == Planned && CourtJob(tx.job) && x in tx.notQueued && x !in tx.notPlaying
       case ReadCount => tx.stage == Entering && tx.job.Resizing?
       case CheckGames => tx.stage == Planned && tx.job.Resizing? && !tx.noGames
       case FindPlaces(_) => tx.stage == Entering && tx.job.Revoking?
  }

  predicate Checked(tx: Tx) {
    match tx.job
    case OnCourt(req) => Newcomers(req) <= tx.notQueued * tx.notPlaying
    case Resizing(n) => n < tx.count ==> tx.noGames
    case _ => true
  }

  predicate MayCommit(tx: Tx) {
    tx.want == {} && ((tx.stage == Planned && Checked(tx)) || (tx.stage == Entering && tx.job.Signing?))
  }

  predicate Enabled(s: System, a: Action) {
    match a
    case Begin(t, job, _, _, _, _) => t !in s.txs && (job.OnCourt? ==> CourtJob(job))
    case Acquire(t, l) => t in s.txs && IsFirst(l, s.txs[t].want) && l !in s.owner
    case Execute(t, st) => t in s.txs && Ready(s.txs[t], st)
    case Commit(t) => t in s.txs && MayCommit(s.txs[t])
    case Abort(t) => t in s.txs && s.txs[t].stage == Doomed
    case ChangePasses(_) => true
  }

  ghost predicate GamesAbove(club: Club, n: nat) {
    exists c :: c in club.courts && c > n && club.courts[c].session.Some?
  }

  /** The transaction after one of its statements. */
  ghost function Executed(tx: Tx, st: Statement, club: Club, usable: set<PassId>): Tx
    requires Ready(tx, st)
  {
    match st
    case ReadRow =>
      var c := tx.job.req.court;
      if c !in club.courts then tx.(stage := Doomed)
      else tx.(seenRow := true, view := tx.view.(closed := club.courts[c].closed, window := club.courts[c].window))
    case ReadSession =>
      var c := tx.job.req.court;
      if c !in club.courts then tx.(stage := Doomed)
      else tx.(seenSession := true, view := tx.view.(session := club.courts[c].session))
    case ReadQueue =>
      var c := tx.job.req.court;
      if c !in club.courts then tx.(stage := Doomed)
      else tx.(seenQueue := true, view := tx.view.(queue := club.courts[c].queue))
    case ReadPass(x) => tx.(known := tx.known[x := x in usable])
    case Plan =>
      if Decision(tx).Refused? then tx.(stage := Doomed)
      else
        var batch := PassKeys(Batch(tx.view, tx.job.req, ReadsOf(tx)));
        tx.(stage := Planned, want := batch, all := tx.all + batch)
    case CheckQueue(x) =>
      if QueuedAnywhere(club, x) then tx.(stage := Doomed) else tx.(notQueued := tx.notQueued + {x})
    case CheckCourt(x) =>
      if PlayingAnywhere(club, x) then tx.(stage := Doomed) else tx.(notPlaying := tx.notPlaying + {x})
    case ReadCount =>
      var courts := set c | tx.job.n < c <= club.count :: CourtKey(c);
      tx.(stage := Planned, count := club.count, want := courts, all := tx.all + courts)
    case CheckGames => if GamesAbove(club, tx.job.n) then tx.(stage := Doomed) else tx.(noGames := true)
    case FindPlaces(courts) => tx.(stage := Planned, want := CourtKeys(courts), all := CourtKeys(courts))
  }

  /** The writes of a commit. */
  function Written(club: Club, tx: Tx): Club {
    match tx.job
    case OnCourt(req) =>
      if CourtJob(tx.job) && Decision(tx).Committed? then club.(courts := club.courts[req.court := Decision(tx).value])
      else club
    case Resizing(n) => ResizeTo(club, n)
    case _ => club
  }

  function Released(owner: map<Lock, TxId>, t: TxId): map<Lock, TxId> {
    map l | l in owner && owner[l] != t :: owner[l]
  }

  ghost function Apply(s: System, a: Action): System
    requires Enabled(s, a)
  {
    match a
    case Begin(t, job, now, minutes, depth, autoExtend) =>
      var locks := FirstLocks(job);
      s.(txs := s.txs[t := Tx(job, now, minutes, depth, autoExtend, Entering, locks, locks,
                              FRESH_COURT, false, false, false, map[], {}, {}, 0, false)])
    case Acquire(t, l) => s.(txs := s.txs[t := s.txs[t].(want := s.txs[t].want - {l})], owner := s.owner[l := t])
    case Execute(t, st) => s.(txs := s.txs[t := Executed(s.txs[t], st, s.club, s.usable)])
    case Commit(t) =>
      var tx := s.txs[t];
      System(Written(s.club, tx), if tx.job.Revoking? then s.usable - {tx.job.pass} else s.usable,
             s.txs - {t}, Released(s.owner, t))
    case Abort(t) => s.(txs := s.txs - {t}, owner := Released(s.owner, t))
    case ChangePasses(usable) => s.(usable := usable)
  }

  // ---- the invariant --------------------------------------------------------

  /** What a transaction knows stays true because of the locks it holds. */
  ghost predicate TxOk(club: Club, owner: map<Lock, TxId>, t: TxId, tx: Tx) {
    && (forall l :: l in tx.all <==> l in tx.want || Holds(owner, t, l))
    && (forall l :: l in tx.want ==> !Holds(owner, t, l))
    && (forall h, l :: h in tx.all && l in tx.want && h !in tx.want ==> Before(h, l))
    && (tx.stage == Entering ==> tx.all == FirstLocks(tx.job))
    && (tx.job.OnCourt? ==> CourtOk(club, tx))
    && (tx.job.Resizing? ==> ResizeOk(club, tx))
  }

  ghost predicate CourtOk(club: Club, tx: Tx)
    requires tx.job.OnCourt?
  {
    && CourtJob(tx.job) && DistinctParty(tx.job.req)
    && CourtKey(tx.job.req.court) in tx.all
    && (tx.seenRow || tx.seenSession || tx.seenQueue || tx.stage == Planned ==>
          CourtKey(tx.job.req.court) !in tx.want && tx.job.req.court in club.courts)
    && (tx.seenRow ==> tx.view.closed == club.courts[tx.job.req.court].closed
                       && tx.view.window == club.courts[tx.job.req.court].window)
    && (tx.seenSession ==> tx.view.session == club.courts[tx.job.req.court].session)
    && (tx.seenQueue ==> tx.view.queue == club.courts[tx.job.req.court].queue)
    && (tx.stage == Planned ==>
          && tx.seenRow && tx.seenSession && tx.seenQueue && Informed(tx) && Decision(tx).Committed?
          && PassKeys(Batch(tx.view, tx.job.req, ReadsOf(tx))) <= tx.all)
    && tx.notQueued <= Newcomers(tx.job.req)
    && (forall x :: x in tx.notQueued ==> PassKey(x) in tx.all && PassKey(x) !in tx.want && !QueuedAnywhere(club, x))
    && (forall x :: x in tx.notPlaying ==> x in tx.notQueued && !PlayingAnywhere(club, x))
  }

  ghost predicate ResizeOk(club: Club, tx: Tx)
    requires tx.job.Resizing?
  {
    && ClubRow in tx.all
    && (tx.stage == Planned ==>
          && ClubRow !in tx.want && tx.count == club.count
          && (forall c :: tx.job.n < c <= tx.count ==> CourtKey(c) in tx.all))
    && (tx.noGames ==> tx.stage != Entering && tx.want == {})
    && (tx.noGames && tx.stage == Planned ==> !GamesAbove(club, tx.job.n))
  }

  ghost predicate Inv(s: System) {
    && WellFormed(s.club)
    && (forall l :: l in s.owner ==> s.owner[l] in s.txs)
    && (forall t :: t in s.txs ==> TxOk(s.club, s.owner, t, s.txs[t]))
  }

  // ---- a commit is the atomic step ------------------------------------------

  /** Locked and checked newcomers are still unplaced. */
  lemma NoPlacementErrors(club: Club, tx: Tx)
    requires tx.job.OnCourt? && CourtOk(club, tx) && tx.stage == Planned && Checked(tx)
    ensures Errors(club, tx.job.req) == OwnErrors(tx.job.req)
  {
    var req := tx.job.req;
    if Places(req) {
      PlacementErrorsComplete(club, req.party.holders);
      forall x | x in Passes(req.party.holders) ensures !Placed(club, x) {
        assert x in tx.notQueued && x in tx.notPlaying;
        forall c | c in club.courts ensures !OnRoster(club.courts[c], x) {
          assert !QueuedAt(club, c, x) && !PlayingAt(club, c, x);
        }
      }
    }
  }

  function RequestOf(tx: Tx): Request
    requires tx.job.OnCourt? || tx.job.Resizing?
  {
    if tx.job.OnCourt? then tx.job.req else Resize(tx.job.n)
  }

  /** The refinement step: what a commit writes is the atomic step on the club just before it. */
  lemma CommitIsAtomicStep(club: Club, owner: map<Lock, TxId>, t: TxId, tx: Tx)
    requires WellFormed(club) && TxOk(club, owner, t, tx) && MayCommit(tx)
    requires tx.job.OnCourt? || tx.job.Resizing?
    ensures Step(club, RequestOf(tx), ReadsOf(tx)).Committed?
    ensures Step(club, RequestOf(tx), ReadsOf(tx)).value == Written(club, tx)
  {
    if tx.job.OnCourt? {
      assert tx.view == club.courts[tx.job.req.court];
      NoPlacementErrors(club, tx);
    } else if tx.job.n < tx.count {
      assert !GamesAbove(club, tx.job.n);
    }
  }

  lemma LineFootprint(ct: Court, ct': Court, from: seq<nat>, extra: set<PassId>, x: PassId)
    requires |from| == |ct'.queue| && InLine(ct', x) && x !in extra
    requires forall i :: 0 <= i < |from| ==>
               ct'.queue[i] <= if from[i] < |ct.queue| then ct.queue[from[i]] else extra
    ensures InLine(ct, x)
  {
  }

  lemma LeaveQueueFootprint(ct: Court, c: int, party: Party, x: PassId)
    requires party.Size() != 0 && LeaveQueueOn(ct, c, party).Committed?
    requires InLine(LeaveQueueOn(ct, c, party).value, x)
    ensures InLine(ct, x)
  {
  }

  lemma QueueFootprint(ct: Court, req: Request, errors: seq<CredError>, r: Reads, x: PassId)
    requires !req.Resize? && AllowedSize(req) && ActOn(ct, req, errors, r).Committed?
    requires x !in Newcomers(req) && InLine(ActOn(ct, req, errors, r).value, x)
    ensures InLine(ct, x)
  {
    var ct' := ActOn(ct, req, errors, r).value;
    match req
    case LeaveQueue(c, party) => LeaveQueueFootprint(ct, c, party, x);
    case Enqueue(_, party) => LineFootprint(ct, ct', seq(|ct'.queue|, i => i), Passes(party.holders), x);
    case _ =>
      SuffixAct(ct, req, errors, r);
      SuffixFootprint(ct, ct', x);
  }

  lemma SuffixFootprint(ct: Court, ct': Court, x: PassId)
    requires |ct'.queue| <= |ct.queue| && ct'.queue == ct.queue[|ct.queue| - |ct'.queue|..] && InLine(ct', x)
    ensures InLine(ct, x)
  {
  }

  /** Every other action leaves a suffix of the queue. */
  lemma SuffixAct(ct: Court, req: Request, errors: seq<CredError>, r: Reads)
    requires !req.Resize? && AllowedSize(req) && !req.LeaveQueue? && !req.Enqueue?
    requires ActOn(ct, req, errors, r).Committed?
    ensures var queue := ActOn(ct, req, errors, r).value.queue;
            |queue| <= |ct.queue| && queue == ct.queue[|ct.queue| - |queue|..]
  {
    var queue := ActOn(ct, req, errors, r).value.queue;
    assert queue == ct.queue || queue == [] || queue == PromoteNext(ct, r).court.queue by {
      match req
      case Expire(_) =>
      case LeaveCourt(_, _) =>
      case _ =>
    }
  }

  lemma PlayersFootprint(ct: Court, req: Request, errors: seq<CredError>, r: Reads, x: PassId)
    requires !req.Resize? && AllowedSize(req) && ActOn(ct, req, errors, r).Committed?
    requires x !in Batch(ct, req, r) && x in Players(ActOn(ct, req, errors, r).value)
    ensures x in Players(ct)
  {
  }

  lemma NewcomersInBatch(ct: Court, req: Request, r: Reads)
    ensures Newcomers(req) <= Batch(ct, req, r)
  {
  }

  /** An action places no pass outside its batch. */
  lemma BatchFootprint(ct: Court, req: Request, errors: seq<CredError>, r: Reads, x: PassId)
    requires !req.Resize? && AllowedSize(req) && ActOn(ct, req, errors, r).Committed?
    requires x !in Batch(ct, req, r)
    ensures InLine(ActOn(ct, req, errors, r).value, x) ==> InLine(ct, x)
    ensures x in Players(ActOn(ct, req, errors, r).value) ==> x in Players(ct)
  {
    NewcomersInBatch(ct, req, r);
    hide ActOn, Batch, Newcomers, InLine;
    if InLine(ActOn(ct, req, errors, r).value, x) {
      QueueFootprint(ct, req, errors, r, x);
    }
    if x in Players(ActOn(ct, req, errors, r).value) {
      PlayersFootprint(ct, req, errors, r, x);
    }
  }

  // ---- every action keeps the invariant -------------------------------------

  lemma ReadKeepsOk(club: Club, owner: map<Lock, TxId>, t: TxId, tx: Tx, st: Statement, usable: set<PassId>)
    requires TxOk(club, owner, t, tx) && Ready(tx, st)
    requires st.ReadRow? || st.ReadSession? || st.ReadQueue? || st.ReadPass?
    ensures TxOk(club, owner, t, Executed(tx, st, club, usable))
  {
    hide Batch, ActOn, PassKeys, QueuedAnywhere, PlayingAnywhere, Newcomers;
  }

  lemma DoomedKeepsOk(club: Club, owner: map<Lock, TxId>, t: TxId, tx: Tx)
    requires TxOk(club, owner, t, tx)
    ensures TxOk(club, owner, t, tx.(stage := Doomed))
  {
  }

  lemma PlanKeepsOk(club: Club, owner: map<Lock, TxId>, t: TxId, tx: Tx, usable: set<PassId>)
    requires TxOk(club, owner, t, tx) && Ready(tx, Plan)
    ensures TxOk(club, owner, t, Executed(tx, Plan, club, usable))
  {
    if Decision(tx).Refused? {
      DoomedKeepsOk(club, owner, t, tx);
    } else {
      var tx', batch := Executed(tx, Plan, club, usable), PassKeys(Batch(tx.view, tx.job.req, ReadsOf(tx)));
      assert forall l :: l in batch ==> l.PassKey?;
      hide Batch, ActOn, PassKeys;
      assert ReadsOf(tx') == ReadsOf(tx) && Decision(tx') == Decision(tx);
      assert tx'.all == {CourtKey(tx.job.req.court)} + batch && tx'.want == batch;
      assert CourtOk(club, tx');
      hide CourtOk;
    }
  }

  /** A pass of the party is in the batch this transaction holds. */
  lemma NewcomerIsLocked(club: Club, owner: map<Lock, TxId>, t: TxId, tx: Tx, x: PassId)
    requires TxOk(club, owner, t, tx) && tx.stage == Planned && CourtJob(tx.job) && x in Newcomers(tx.job.req)
    ensures PassKey(x) in tx.all
  {
  }

  /** Knowing more passes unplaced keeps the rest of what the transaction knows. */
  lemma LearnedKeepsOk(club: Club, owner: map<Lock, TxId>, t: TxId, tx: Tx, queued: set<PassId>, playing: set<PassId>)
    requires TxOk(club, owner, t, tx) && tx.job.OnCourt? && queued <= Newcomers(tx.job.req)
    requires forall x :: x in queued ==> PassKey(x) in tx.all && PassKey(x) !in tx.want && !QueuedAnywhere(club, x)
    requires forall x :: x in playing ==> x in queued && !PlayingAnywhere(club, x)
    ensures TxOk(club, owner, t, tx.(notQueued := queued, notPlaying := playing))
  {
  }

  lemma CheckKeepsOk(club: Club, owner: map<Lock, TxId>, t: TxId, tx: Tx, st: Statement, usable: set<PassId>)
    requires TxOk(club, owner, t, tx) && Ready(tx, st) && (st.CheckQueue? || st.CheckCourt?)
    ensures TxOk(club, owner, t, Executed(tx, st, club, usable))
  {
    assert CourtOk(club, tx);
    if Executed(tx, st, club, usable).stage == Doomed {
      DoomedKeepsOk(club, owner, t, tx);
    } else if st.CheckQueue? {
      NewcomerIsLocked(club, owner, t, tx, st.x);
      LearnedKeepsOk(club, owner, t, tx, tx.notQueued + {st.x}, tx.notPlaying);
    } else {
      LearnedKeepsOk(club, owner, t, tx, tx.notQueued, tx.notPlaying + {st.x});
    }
    hide TxOk, CourtOk, QueuedAnywhere, PlayingAnywhere, Newcomers;
  }

  lemma ClubStatementKeepsOk(club: Club, owner: map<Lock, TxId>, t: TxId, tx: Tx, st: Statement, usable: set<PassId>)
    requires TxOk(club, owner, t, tx) && Ready(tx, st) && (st.ReadCount? || st.CheckGames? || st.FindPlaces?)
    ensures TxOk(club, owner, t, Executed(tx, st, club, usable))
  {
    hide Batch, ActOn, PassKeys, QueuedAnywhere, PlayingAnywhere, Newcomers, CourtOk;
  }

  lemma ExecuteKeepsOk(club: Club, owner: map<Lock, TxId>, t: TxId, tx: Tx, st: Statement, usable: set<PassId>)
    requires TxOk(club, owner, t, tx) && Ready(tx, st)
    ensures TxOk(club, owner, t, Executed(tx, st, club, usable))
  {
    if st.Plan? {
      PlanKeepsOk(club, owner, t, tx, usable);
    } else if st.CheckQueue? || st.CheckCourt? {
      CheckKeepsOk(club, owner, t, tx, st, usable);
    } else if st.ReadRow? || st.ReadSession? || st.ReadQueue? || st.ReadPass? {
      ReadKeepsOk(club, owner, t, tx, st, usable);
    } else {
      ClubStatementKeepsOk(club, owner, t, tx, st, usable);
    }
  }

  lemma OwnLocksOnly(club: Club, owner: map<Lock, TxId>, owner': map<Lock, TxId>, u: TxId, tx: Tx)
    requires TxOk(club, owner, u, tx)
    requires forall l :: Holds(owner, u, l) <==> Holds(owner', u, l)
    ensures TxOk(club, owner', u, tx)
  {
  }

  /** What a transaction knows survives any change of a court it has not locked that places no pass it has locked. */
  lemma UntouchedKeepsOk(club: Club, club': Club, owner: map<Lock, TxId>, u: TxId, tx: Tx, c: int)
    requires TxOk(club, owner, u, tx) && !Holds(owner, u, CourtKey(c))
    requires club'.count == club.count && club'.courts.Keys == club.courts.Keys
    requires forall d :: d in club.courts && d != c ==> club'.courts[d] == club.courts[d]
    requires forall x :: Holds(owner, u, PassKey(x)) && QueuedAnywhere(club', x) ==> QueuedAnywhere(club, x)
    requires forall x :: Holds(owner, u, PassKey(x)) && PlayingAnywhere(club', x) ==> PlayingAnywhere(club, x)
    requires c <= club.count && forall n :: GamesAbove(club', n) ==> GamesAbove(club, n) || c > n
    ensures TxOk(club', owner, u, tx)
  {
    hide Informed, Decision, Batch, Newcomers, QueuedAnywhere, PlayingAnywhere, GamesAbove, DistinctParty;
  }

  /** A commit on one court leaves what every other transaction knows true: the locks are disjoint. */
  lemma CourtCommitKeepsOther(club: Club, owner: map<Lock, TxId>, t: TxId, tx: Tx, u: TxId, other: Tx)
    requires WellFormed(club) && t != u && TxOk(club, owner, t, tx) && TxOk(club, owner, u, other)
    requires MayCommit(tx) && tx.job.OnCourt?
    ensures TxOk(Written(club, tx), owner, u, other)
  {
    var c, club' := tx.job.req.court, Written(club, tx);
    assert tx.view == club.courts[c] && Holds(owner, t, CourtKey(c));
    assert club'.courts.Keys == club.courts.Keys;
    assert forall d :: d in club.courts && d != c ==> club'.courts[d] == club.courts[d];
    forall x | Holds(owner, u, PassKey(x))
      ensures QueuedAnywhere(club', x) ==> QueuedAnywhere(club, x)
      ensures PlayingAnywhere(club', x) ==> PlayingAnywhere(club, x)
    {
      UnlockedPassStays(club, owner, t, tx, x);
    }
    forall n | GamesAbove(club', n) && !GamesAbove(club, n) ensures c > n {
    }
    hide TxOk, Written;
    UntouchedKeepsOk(club, club', owner, u, other, c);
  }

  lemma UnlockedPassStays(club: Club, owner: map<Lock, TxId>, t: TxId, tx: Tx, x: PassId)
    requires TxOk(club, owner, t, tx) && MayCommit(tx) && tx.job.OnCourt? && !Holds(owner, t, PassKey(x))
    ensures QueuedAnywhere(Written(club, tx), x) ==> QueuedAnywhere(club, x)
    ensures PlayingAnywhere(Written(club, tx), x) ==> PlayingAnywhere(club, x)
  {
    var c, club' := tx.job.req.court, Written(club, tx);
    assert tx.view == club.courts[c];
    assert x !in Batch(tx.view, tx.job.req, ReadsOf(tx)) by {
      assert PassKey(x) !in PassKeys(Batch(tx.view, tx.job.req, ReadsOf(tx)));
    }
    BatchFootprint(tx.view, tx.job.req, OwnErrors(tx.job.req), ReadsOf(tx), x);
    hide ActOn, Batch;
    if d :| QueuedAt(club', d, x) {
      assert QueuedAt(club, d, x);
    }
    if d :| PlayingAt(club', d, x) {
      assert PlayingAt(club, d, x);
    }
  }

  lemma ResizeCommitKeepsOther(club: Club, owner: map<Lock, TxId>, t: TxId, tx: Tx, u: TxId, other: Tx)
    requires WellFormed(club) && t != u && TxOk(club, owner, t, tx) && TxOk(club, owner, u, other)
    requires MayCommit(tx) && tx.job.Resizing?
    ensures TxOk(Written(club, tx), owner, u, other)
  {
    var n, club' := tx.job.n, Written(club, tx);
    assert Holds(owner, t, ClubRow);
    assert forall c :: c in club.courts && c > n ==> Holds(owner, t, CourtKey(c));
    assert forall c :: c in club.courts && c <= n ==> c in club'.courts && club'.courts[c] == club.courts[c];
    forall x ensures QueuedAnywhere(club', x) ==> QueuedAnywhere(club, x)
             ensures PlayingAnywhere(club', x) ==> PlayingAnywhere(club, x)
    {
      if c :| QueuedAt(club', c, x) {
        assert QueuedAt(club, c, x);
      }
      if c :| PlayingAt(club', c, x) {
        assert PlayingAt(club, c, x);
      }
    }
    hide ResizeTo, Written;
  }

  lemma BeginKeepsInv(s: System, a: Action)
    requires Inv(s) && Enabled(s, a) && a.Begin? && Proper(a.job)
    ensures Inv(Apply(s, a))
  {
  }

  lemma AcquireKeepsOk(club: Club, owner: map<Lock, TxId>, t: TxId, tx: Tx, l: Lock)
    requires TxOk(club, owner, t, tx) && IsFirst(l, tx.want) && l !in owner
    ensures TxOk(club, owner[l := t], t, tx.(want := tx.want - {l}))
  {
  }

  lemma AcquireKeepsInv(s: System, t: TxId, l: Lock)
    requires Inv(s) && Enabled(s, Acquire(t, l))
    ensures Inv(Apply(s, Acquire(t, l)))
  {
    var s' := Apply(s, Acquire(t, l));
    AcquireKeepsOk(s.club, s.owner, t, s.txs[t], l);
    forall u | u in s'.txs && u != t ensures TxOk(s'.club, s'.owner, u, s'.txs[u]) {
      OwnLocksOnly(s.club, s.owner, s'.owner, u, s.txs[u]);
    }
    hide TxOk;
  }

  lemma ExecuteKeepsInv(s: System, t: TxId, st: Statement)
    requires Inv(s) && Enabled(s, Execute(t, st))
    ensures Inv(Apply(s, Execute(t, st)))
  {
    ExecuteKeepsOk(s.club, s.owner, t, s.txs[t], st, s.usable);
    hide TxOk, Executed;
  }

  lemma AbortKeepsInv(s: System, t: TxId)
    requires Inv(s) && Enabled(s, Abort(t))
    ensures Inv(Apply(s, Abort(t)))
  {
    var s' := Apply(s, Abort(t));
    forall u | u in s'.txs ensures TxOk(s'.club, s'.owner, u, s'.txs[u]) {
      OwnLocksOnly(s.club, s.owner, s'.owner, u, s.txs[u]);
    }
    hide TxOk;
  }

  lemma CommitKeepsInv(s: System, t: TxId)
    requires Inv(s) && Enabled(s, Commit(t))
    ensures Inv(Apply(s, Commit(t)))
  {
    var tx, s' := s.txs[t], Apply(s, Commit(t));
    assert TxOk(s.club, s.owner, t, tx);
    if tx.job.OnCourt? || tx.job.Resizing? {
      CommitIsAtomicStep(s.club, s.owner, t, tx);
      StepKeepsWellFormed(s.club, RequestOf(tx), ReadsOf(tx));
    }
    forall u | u in s'.txs ensures TxOk(s'.club, s'.owner, u, s'.txs[u]) {
      if tx.job.OnCourt? {
        CourtCommitKeepsOther(s.club, s.owner, t, tx, u, s.txs[u]);
      } else if tx.job.Resizing? {
        ResizeCommitKeepsOther(s.club, s.owner, t, tx, u, s.txs[u]);
      }
      OwnLocksOnly(s'.club, s.owner, s'.owner, u, s.txs[u]);
    }
  }

  /** Every action of every transaction keeps the invariant. */
  lemma ActionKeepsInv(s: System, a: Action)
    requires Inv(s) && Enabled(s, a) && (a.Begin? ==> Proper(a.job))
    ensures Inv(Apply(s, a))
  {
    match a
    case Begin(_, _, _, _, _, _) => BeginKeepsInv(s, a);
    case Acquire(t, l) => AcquireKeepsInv(s, t, l);
    case Execute(t, st) => ExecuteKeepsInv(s, t, st);
    case Commit(t) => CommitKeepsInv(s, t);
    case Abort(t) => AbortKeepsInv(s, t);
    case ChangePasses(_) =>
  }

  // ---- a refusal is an atomic refusal ---------------------------------------

  /** The statement makes the transaction give up. */
  ghost predicate Dooms(s: System, t: TxId, st: Statement) {
    Enabled(s, Execute(t, st)) && Executed(s.txs[t], st, s.club, s.usable).stage == Doomed
  }

  lemma ErrorsRefuse(ct: Court, req: Request, errors: seq<CredError>, r: Reads)
    requires Places(req) && AllowedSize(req) && errors != []
    ensures ActOn(ct, req, errors, r).Refused?
  {
  }

  /** A placed newcomer makes the atomic placement check fail. */
  lemma PlacedNewcomerRefused(club: Club, req: Request, r: Reads, x: PassId)
    requires Places(req) && req.court in club.courts && AllowedSize(req) && x in Newcomers(req) && Placed(club, x)
    ensures Step(club, req, r).Refused?
  {
    PlacementErrorsComplete(club, req.party.holders);
    ErrorsRefuse(club.courts[req.court], req, Errors(club, req), r);
    hide ActOn, Passes, Placed, PlacementErrors;
  }

  lemma CheckDoomIsRefusal(s: System, t: TxId, st: Statement)
    requires Inv(s) && Dooms(s, t, st) && (st.CheckQueue? || st.CheckCourt?)
    ensures Step(s.club, RequestOf(s.txs[t]), ReadsOf(s.txs[t])).Refused?
  {
    var tx := s.txs[t];
    assert TxOk(s.club, s.owner, t, tx) && tx.view == s.club.courts[tx.job.req.court];
    var c :| if st.CheckQueue? then QueuedAt(s.club, c, st.x) else PlayingAt(s.club, c, st.x);
    assert OnRoster(s.club.courts[c], st.x);
    PlacedNewcomerRefused(s.club, tx.job.req, ReadsOf(tx), st.x);
  }

  /** Further errors never turn a refusal into a commit, and change only its list of errors. */
  lemma MoreErrorsStillRefuse(ct: Court, req: Request, errors: seq<CredError>, more: seq<CredError>, r: Reads)
    requires !req.Resize? && AllowedSize(req) && ActOn(ct, req, errors, r).Refused?
    ensures ActOn(ct, req, errors + more, r).Refused?
    ensures var reason := ActOn(ct, req, errors, r).reason;
            ActOn(ct, req, errors + more, r).reason == reason
            || (reason.Validation? && ActOn(ct, req, errors + more, r).reason.Validation?)
  {
  }

  /**
   Whenever a statement makes a court or resize transaction give up, the atomic
   step on the club at that moment, with the reads made so far, refuses too;
   what it decided from its own reads it refuses for the same reason.
   */
  lemma DoomIsAtomicRefusal(s: System, t: TxId, st: Statement)
    requires Inv(s) && Dooms(s, t, st) && (s.txs[t].job.OnCourt? || s.txs[t].job.Resizing?)
    ensures var o := Step(s.club, RequestOf(s.txs[t]), ReadsOf(s.txs[t]));
            && o.Refused?
            && (st.Plan? ==>
                  var reason := Decision(s.txs[t]).reason;
                  o.reason == reason || (reason.Validation? && o.reason.Validation?))
  {
    var tx := s.txs[t];
    assert TxOk(s.club, s.owner, t, tx);
    if st.CheckQueue? || st.CheckCourt? {
      CheckDoomIsRefusal(s, t, st);
    } else if st.Plan? {
      assert tx.view == s.club.courts[tx.job.req.court];
      MoreErrorsStillRefuse(tx.view, tx.job.req, OwnErrors(tx.job.req),
                            if Places(tx.job.req) then PlacementErrors(s.club, tx.job.req.party.holders) else [],
                            ReadsOf(tx));
      assert Errors(s.club, tx.job.req) == OwnErrors(tx.job.req)
             + if Places(tx.job.req) then PlacementErrors(s.club, tx.job.req.party.holders) else [];
    }
  }

  // ---- runs -----------------------------------------------------------------

  /** The system after a run, or None if some action was not enabled. */
  ghost function Exec(s: System, actions: seq<Action>): Option<System> {
    if actions == [] then Some(s)
    else
      var a := actions[|actions| - 1];
      match Exec(s, actions[..|actions| - 1])
      case None => None
      case Some(m) => if Enabled(m, a) && (a.Begin? ==> Proper(a.job)) then Some(Apply(m, a)) else None
  }

  /** The atomic call a commit amounts to. */
  ghost function CallOf(s: System, a: Action): seq<Call> {
    if a.Commit? && a.t in s.txs && (s.txs[a.t].job.OnCourt? || s.txs[a.t].job.Resizing?) then
      [Call(RequestOf(s.txs[a.t]), ReadsOf(s.txs[a.t]))]
    else []
  }

  /** The atomic calls of a run, in commit order. */
  ghost function Commits(s: System, actions: seq<Action>): seq<Call> {
    if actions == [] then []
    else
      var init := actions[..|actions| - 1];
      Commits(s, init) + if Exec(s, init).Some? then CallOf(Exec(s, init).value, actions[|actions| - 1]) else []
  }

  ghost predicate Initial(s: System) {
    WellFormed(s.club) && s.txs == map[] && s.owner == map[]
  }

  ghost predicate AllCommit(club: Club, calls: seq<Call>) {
    calls == [] ||
    var init, last := calls[..|calls| - 1], calls[|calls| - 1];
    AllCommit(club, init) && Step(Run(club, init), last.req, last.read).Committed?
  }

  lemma RunAppends(club: Club, calls: seq<Call>, call: Call)
    ensures Run(club, calls + [call]) == After(Run(club, calls), call)
    ensures AllCommit(club, calls + [call]) <==>
              AllCommit(club, calls) && Step(Run(club, calls), call.req, call.read).Committed?
  {
  }

  /** One action changes the club exactly by its atomic call, if it is a commit of one. */
  lemma ActionIsItsCall(s: System, a: Action)
    requires Inv(s) && Enabled(s, a)
    ensures CallOf(s, a) == [] ==> Apply(s, a).club == s.club
    ensures CallOf(s, a) != [] ==>
              var call := CallOf(s, a)[0];
              && DistinctParty(call.req)
              && Step(s.club, call.req, call.read).Committed?
              && Apply(s, a).club == After(s.club, call)
  {
    if CallOf(s, a) != [] {
      CommitIsAtomicStep(s.club, s.owner, a.t, s.txs[a.t]);
    }
  }

  /**
   Interleaving refines the atomic machine: after any interleaved run, the
   placement is what the committed transactions, run atomically one by one in
   commit order with the reads each of them made, would have produced; and
   each of those atomic steps commits.
   */
  lemma {:induction false} InterleavingIsAtomicRun(s: System, actions: seq<Action>)
    requires Initial(s) && Exec(s, actions).Some?
    ensures Inv(Exec(s, actions).value)
    ensures ProperCalls(Commits(s, actions)) && AllCommit(s.club, Commits(s, actions))
    ensures Exec(s, actions).value.club == Run(s.club, Commits(s, actions))
  {
    if actions != [] {
      var init, last := actions[..|actions| - 1], actions[|actions| - 1];
      InterleavingIsAtomicRun(s, init);
      var m := Exec(s, init).value;
      ActionIsItsCall(m, last);
      ActionKeepsInv(m, last);
      if CallOf(m, last) == [] {
        assert Commits(s, actions) == Commits(s, init);
      } else {
        RunAppends(s.club, Commits(s, init), CallOf(m, last)[0]);
      }
    }
  }

  /** The other half of the refinement: every refusal in any interleaved run is the atomic machine's refusal. */
  lemma InterleavedRefusalIsAtomic(s: System, actions: seq<Action>, t: TxId, st: Statement)
    requires Initial(s) && Exec(s, actions).Some? && Dooms(Exec(s, actions).value, t, st)
    requires Exec(s, actions).value.txs[t].job.OnCourt? || Exec(s, actions).value.txs[t].job.Resizing?
    ensures var m := Exec(s, actions).value;
            && m.club == Run(s.club, Commits(s, actions))
            && Step(m.club, RequestOf(m.txs[t]), ReadsOf(m.txs[t])).Refused?
  {
    InterleavingIsAtomicRun(s, actions);
    DoomIsAtomicRefusal(Exec(s, actions).value, t, st);
  }

  // ---- deadlock freedom -----------------------------------------------------

  lemma BeforeIsStrictOrder(a: Lock, b: Lock, c: Lock)
    ensures !Before(a, a)
    ensures Before(a, b) && Before(b, c) ==> Before(a, c)
  {
  }

  /** t's next lock is held by u. */
  ghost predicate WaitsFor(s: System, t: TxId, u: TxId) {
    t in s.txs && exists l :: IsFirst(l, s.txs[t].want) && Holds(s.owner, u, l)
  }

  ghost predicate WaitPath(s: System, path: seq<TxId>) {
    forall i :: 0 <= i < |path| - 1 ==> WaitsFor(s, path[i], path[i + 1])
  }

  /** Whoever waits for a held lock wants a lower lock than its holder still wants. */
  lemma WaitingAscends(s: System, t: TxId, l: Lock, m: Lock)
    requires Inv(s) && l in s.owner && s.owner[l] == t && IsFirst(m, s.txs[t].want)
    ensures Before(l, m)
  {
  }

  lemma {:induction false} WaitPathAscends(s: System, path: seq<TxId>, l: Lock, m: Lock)
    requires Inv(s) && |path| >= 2 && WaitPath(s, path)
    requires path[0] in s.txs && IsFirst(l, s.txs[path[0]].want)
    requires path[|path| - 1] in s.txs && IsFirst(m, s.txs[path[|path| - 1]].want)
    ensures Before(l, m)
  {
    var init, u := path[..|path| - 1], path[|path| - 2];
    assert WaitsFor(s, u, path[|path| - 2 + 1]);
    var k :| IsFirst(k, s.txs[u].want) && Holds(s.owner, path[|path| - 1], k);
    WaitingAscends(s, path[|path| - 1], k, m);
    if |path| == 2 {
      BeforeIsStrictOrder(l, k, l);
    } else {
      forall i | 0 <= i < |init| - 1 ensures WaitsFor(s, init[i], init[i + 1]) {
        assert WaitsFor(s, path[i], path[i + 1]);
      }
      WaitPathAscends(s, init, l, k);
      BeforeIsStrictOrder(l, k, m);
    }
  }

  /** The wait-for graph of every reachable state is acyclic: no chain of waits returns to its start. */
  lemma NoWaitCycle(s: System, actions: seq<Action>, path: seq<TxId>)
    requires Initial(s) && Exec(s, actions).Some?
    requires |path| >= 2 && WaitPath(Exec(s, actions).value, path)
    ensures path[0] != path[|path| - 1]
  {
    var m := Exec(s, actions).value;
    InterleavingIsAtomicRun(s, actions);
    assert WaitsFor(m, path[0], path[0 + 1]);
    if path[0] == path[|path| - 1] {
      var l :| IsFirst(l, m.txs[path[0]].want);
      WaitPathAscends(m, path, l, l);
      BeforeIsStrictOrder(l, l, l);
    }
  }

  /** A step of a transaction that is already running. */
  predicate RunningStep(a: Action) {
    !a.Begin? && !a.ChangePasses?
  }

  ghost predicate SomeoneCanStep(s: System) {
    exists a :: RunningStep(a) && Enabled(s, a)
  }

  /** A transaction that wants no lock always has a next step of its own. */
  lemma UnblockedCanStep(s: System, t: TxId)
    requires Inv(s) && t in s.txs && s.txs[t].want == {}
    ensures SomeoneCanStep(s)
  {
    var tx := s.txs[t];
    assert TxOk(s.club, s.owner, t, tx);
    var a :=
      if tx.stage == Doomed then Abort(t)
      else if MayCommit(tx) then Commit(t)
      else if tx.stage == Planned then Execute(t, NextCheck(tx))
      else if tx.job.Resizing? then Execute(t, ReadCount)
      else if tx.job.Revoking? then Execute(t, FindPlaces({}))
      else Execute(t, NextRead(tx));
    hide Batch, ActOn, PassKeys;
    assert Enabled(s, a) && RunningStep(a);
  }

  ghost function NextCheck(tx: Tx): (st: Statement)
    requires tx.want == {} && tx.stage == Planned && !Checked(tx) && (tx.job.OnCourt? ==> CourtJob(tx.job))
    ensures Ready(tx, st)
  {
    if tx.job.Resizing? then CheckGames
    else
      var x :| x in Newcomers(tx.job.req) && x !in tx.notQueued * tx.notPlaying;
      if x !in tx.notQueued then CheckQueue(x) else CheckCourt(x)
  }

  ghost function NextRead(tx: Tx): (st: Statement)
    requires tx.want == {} && tx.stage == Entering && CourtJob(tx.job)
    ensures Ready(tx, st)
  {
    if !tx.seenRow then ReadRow
    else if !tx.seenSession then ReadSession
    else if !tx.seenQueue then ReadQueue
    else if Informed(tx) then Plan
    else
      var needed := Everyone(tx.view.queue) + Players(tx.view);
      assert exists x :: x in needed && x !in tx.known by {
        if forall x :: x in needed ==> x in tx.known {
          forall i | 0 <= i < |tx.view.queue| ensures tx.view.queue[i] <= tx.known.Keys {
            assert forall x :: x in tx.view.queue[i] ==> x in Everyone(tx.view.queue);
          }
        }
      }
      var x :| x in needed && x !in tx.known;
      ReadPass(x)
  }

  /** Following the waits from t ends at a transaction that can step; `above` bounds the walk. */
  lemma {:induction false} WalkToStep(s: System, t: TxId, above: set<TxId>)
    requires Inv(s) && t in s.txs
    requires forall u, l, m :: u in s.txs && IsFirst(l, s.txs[t].want) && IsFirst(m, s.txs[u].want) && Before(l, m)
                               ==> u in above
    ensures SomeoneCanStep(s)
    decreases |above|
  {
    if s.txs[t].want == {} {
      UnblockedCanStep(s, t);
    } else {
      FirstExists(s.txs[t].want);
      var l :| IsFirst(l, s.txs[t].want);
      if l !in s.owner {
        assert Enabled(s, Acquire(t, l)) && RunningStep(Acquire(t, l));
      } else if s.txs[s.owner[l]].want == {} {
        UnblockedCanStep(s, s.owner[l]);
      } else {
        var u := s.owner[l];
        FirstExists(s.txs[u].want);
        var m :| IsFirst(m, s.txs[u].want);
        WaitingAscends(s, u, l, m);
        forall w, k, n | w in s.txs && IsFirst(k, s.txs[u].want) && IsFirst(n, s.txs[w].want) && Before(k, n)
          ensures w in above - {u}
        {
          FirstIsUnique(s.txs[u].want, k, m);
          BeforeIsStrictOrder(l, m, n);
          if w == u {
            FirstIsUnique(s.txs[u].want, n, m);
            BeforeIsStrictOrder(m, m, m);
          }
        }
        WalkToStep(s, u, above - {u});
      }
    }
  }

  lemma FirstIsUnique(want: set<Lock>, l: Lock, m: Lock)
    requires IsFirst(l, want) && IsFirst(m, want)
    ensures l == m
  {
  }

  /** Deadlock freedom: in every reachable state with transactions in flight, one of them can step. */
  lemma NeverStuck(s: System, actions: seq<Action>)
    requires Initial(s) && Exec(s, actions).Some? && Exec(s, actions).value.txs != map[]
    ensures SomeoneCanStep(Exec(s, actions).value)
  {
    var m := Exec(s, actions).value;
    InterleavingIsAtomicRun(s, actions);
    var t :| t in m.txs;
    WalkToStep(m, t, m.txs.Keys);
  }
}
