/**
 The club's courts as one atomic step machine.

 A court is its closure switch, its active session and its FIFO queue; queue
 position p is index p - 1. A step is one transaction: it gets what the
 transaction read besides the placement (`Reads`: its clock, the club settings
 and the passes it found usable) and either commits a new club or refuses.
 Instants are milliseconds.
 */
module CourtModel {
  import opened Wrappers

  type PassId = nat

  const MINUTE: int := 60_000

  datatype Window = Window(from: int, until: int)

  datatype Session = Session(players: set<PassId>, startedAt: int, endsAt: int, extensions: nat)

  datatype Court = Court(closed: bool, window: Option<Window>, session: Option<Session>, queue: seq<set<PassId>>)

  datatype Club = Club(count: nat, courts: map<int, Court>)

  const FRESH_COURT := Court(false, None, None, [])

  datatype Holder = Holder(username: string, pass: PassId)

  datatype CredCode =
    | NotFound | Expired | Revoked | BadPassword | Duplicate
    | OnCourt | InQueue | NotOnCourt | NotInQueue

  datatype CredError = CredError(username: string, code: CredCode, court: Option<int>)

  /** What credential resolution found: the passes it accepted and every failure, in order. */
  datatype Party = Party(holders: seq<Holder>, errors: seq<CredError>) {
    function Size(): nat { |holders| + |errors| }

    /** No pass is listed twice; resolution guarantees it (see PassDesk.ResolvePlayers). */
    ghost predicate Distinct() {
      forall i, j :: 0 <= i < j < |holders| ==> holders[i].pass != holders[j].pass
    }
  }

  /** Everything besides the placement that a transaction read. */
  datatype Reads = Reads(now: int, minutes: nat, depth: int, autoExtend: bool, usable: set<PassId>)

  datatype Request =
    | Take(court: int, party: Party)
    | Join(court: int, party: Party)
    | Enqueue(court: int, party: Party)
    | LeaveCourt(court: int, party: Party)
    | LeaveQueue(court: int, party: Party)
    | Expire(court: int)
    | Close(court: int, from: int, until: int)
    | Reopen(court: int)
    | Release(court: int)
    | Resize(newCount: nat)

  datatype Refusal =
    | BadGroupSize | NoSuchCourt | CourtClosed | FinishingUp | InPlay | CourtFree | NoHalfGame
    | OpenSpots | QueueFull | NoGame | DifferentGroups | OneOrThree | NothingDue | BadWindow
    | GamesInPlay | Validation(errors: seq<CredError>)

  /** What a committed step reports. */
  datatype Note =
    | Started
    | Joined
    | Queued(position: nat)
    | LeftCourt(sessionEnded: bool, promoted: bool)
    | LeftQueue(removedGroup: bool)
    | Promoted(dropped: nat)
    | Extended
    | Cleared
    | Closed(released: nat)
    | Reopened
    | Released
    | Resized

  datatype Outcome<T> = Committed(value: T, note: Note) | Refused(reason: Refusal)

  // ---- reading a court ------------------------------------------------------

  predicate ClosedAt(ct: Court, now: int) {
    ct.closed || (ct.window.Some? && ct.window.value.from <= now < ct.window.value.until)
  }

  predicate Overdue(ct: Court, now: int) {
    ct.session.Some? && ct.session.value.endsAt <= now
  }

  function Players(ct: Court): set<PassId> {
    if ct.session.Some? then ct.session.value.players else {}
  }

  function Passes(hs: seq<Holder>): set<PassId> {
    set h | h in hs :: h.pass
  }

  ghost predicate InLine(ct: Court, x: PassId) {
    exists i :: 0 <= i < |ct.queue| && x in ct.queue[i]
  }

  ghost predicate QueuedAt(club: Club, c: int, x: PassId) {
    c in club.courts && InLine(club.courts[c], x)
  }

  ghost predicate PlayingAt(club: Club, c: int, x: PassId) {
    c in club.courts && x in Players(club.courts[c])
  }

  ghost predicate QueuedAnywhere(club: Club, x: PassId) {
    exists c :: QueuedAt(club, c, x)
  }

  ghost predicate PlayingAnywhere(club: Club, x: PassId) {
    exists c :: PlayingAt(club, c, x)
  }

  // ---- credential checks ----------------------------------------------------

  /** The double-use rule for one pass: queue membership is looked up first. */
  ghost function PlacementError(club: Club, h: Holder): seq<CredError> {
    if QueuedAnywhere(club, h.pass) then
      var c :| QueuedAt(club, c, h.pass);
      [CredError(h.username, InQueue, Some(c))]
    else if PlayingAnywhere(club, h.pass) then
      var c :| PlayingAt(club, c, h.pass);
      [CredError(h.username, OnCourt, Some(c))]
    else []
  }

  ghost function PlacementErrors(club: Club, hs: seq<Holder>): seq<CredError> {
    if hs == [] then []
    else PlacementErrors(club, hs[..|hs| - 1]) + PlacementError(club, hs[|hs| - 1])
  }

  function MissingErrors(c: int, code: CredCode, present: set<PassId>, hs: seq<Holder>): seq<CredError> {
    if hs == [] then []
    else
      var h := hs[|hs| - 1];
      MissingErrors(c, code, present, hs[..|hs| - 1])
      + if h.pass in present then [] else [CredError(h.username, code, Some(c))]
  }

  // ---- promotion ------------------------------------------------------------

  /** Index of the first group all of whose passes are usable, or the queue length. */
  function FirstUsable(queue: seq<set<PassId>>, usable: set<PassId>): (k: nat)
    ensures k <= |queue|
    ensures forall i :: 0 <= i < k ==> !(queue[i] <= usable)
    ensures k < |queue| ==> queue[k] <= usable
  {
    if queue == [] || queue[0] <= usable then 0 else 1 + FirstUsable(queue[1..], usable)
  }

  function FreshSession(players: set<PassId>, r: Reads): Session {
    Session(players, r.now, r.now + r.minutes * MINUTE, 0)
  }

  /** The court after the shared promotion step; `moved` says whether a group was promoted. */
  datatype Promotion = Promotion(court: Court, dropped: nat, moved: bool)

  function PromoteNext(ct: Court, r: Reads): Promotion {
    var k := FirstUsable(ct.queue, r.usable);
    if k < |ct.queue| && !ClosedAt(ct, r.now) then
      Promotion(ct.(session := Some(FreshSession(ct.queue[k], r)), queue := ct.queue[k + 1..]), k, true)
    else
      Promotion(ct.(queue := ct.queue[k..]), k, false)
  }

  // ---- actions on one court -------------------------------------------------

  /** `errors` are the party's credential errors, including placement errors. */
  function TakeOn(ct: Court, party: Party, errors: seq<CredError>, r: Reads): Outcome<Court> {
    if ClosedAt(ct, r.now) then Refused(CourtClosed)
    else if Overdue(ct, r.now) then Refused(FinishingUp)
    else if ct.session.Some? then Refused(InPlay)
    else if errors != [] then Refused(Validation(errors))
    else Committed(ct.(session := Some(FreshSession(Passes(party.holders), r))), Started)
  }

  function JoinOn(ct: Court, party: Party, errors: seq<CredError>, r: Reads): Outcome<Court> {
    if ClosedAt(ct, r.now) then Refused(CourtClosed)
    else if ct.session.None? then Refused(CourtFree)
    else if Overdue(ct, r.now) then Refused(FinishingUp)
    else if |Players(ct)| != 2 then Refused(NoHalfGame)
    else if errors != [] then Refused(Validation(errors))
    else
      var s := ct.session.value;
      Committed(ct.(session := Some(s.(players := s.players + Passes(party.holders)))), Joined)
  }

  function EnqueueOn(ct: Court, party: Party, errors: seq<CredError>, r: Reads): Outcome<Court> {
    if ClosedAt(ct, r.now) then Refused(CourtClosed)
    else if ct.session.None? then Refused(CourtFree)
    else if |Players(ct)| < 4 then Refused(OpenSpots)
    else if |ct.queue| >= r.depth then Refused(QueueFull)
    else if errors != [] then Refused(Validation(errors))
    else Committed(ct.(queue := ct.queue + [Passes(party.holders)]), Queued(|ct.queue| + 1))
  }

  function LeaveCourtOn(ct: Court, c: int, party: Party, r: Reads): Outcome<Court> {
    if ct.session.None? then Refused(NoGame)
    else if Overdue(ct, r.now) then Refused(FinishingUp)
    else
      var s := ct.session.value;
      var errors := party.errors + MissingErrors(c, NotOnCourt, s.players, party.holders);
      var remainder := |s.players| - |party.holders|;
      if errors != [] then Refused(Validation(errors))
      else if remainder != 0 && remainder != 2 then Refused(OneOrThree)
      else if remainder == 2 then
        Committed(ct.(session := Some(s.(players := s.players - Passes(party.holders)))), LeftCourt(false, false))
      else
        var p := PromoteNext(ct, r);
        if p.moved then Committed(p.court, LeftCourt(true, true))
        else Committed(p.court.(session := None), LeftCourt(true, false))
  }

  /** Index of the group holding x, or the queue length. */
  function GroupOf(queue: seq<set<PassId>>, x: PassId): (g: nat)
    ensures g <= |queue|
    ensures g < |queue| ==> x in queue[g]
    ensures forall i :: 0 <= i < g ==> x !in queue[i]
  {
    if queue == [] || x in queue[0] then 0 else 1 + GroupOf(queue[1..], x)
  }

  function Everyone(queue: seq<set<PassId>>): set<PassId> {
    set i, x | 0 <= i < |queue| && x in queue[i] :: x
  }

  function LeaveQueueOn(ct: Court, c: int, party: Party): Outcome<Court>
    requires party.Size() != 0
  {
    var errors := party.errors + MissingErrors(c, NotInQueue, Everyone(ct.queue), party.holders);
    if errors != [] then Refused(Validation(errors))
    else
      var g := GroupOf(ct.queue, party.holders[0].pass);
      if g == |ct.queue| || !(Passes(party.holders) <= ct.queue[g]) then Refused(DifferentGroups)
      else
        var remainder := |ct.queue[g]| - |party.holders|;
        if remainder != 0 && remainder != 2 then Refused(OneOrThree)
        else if remainder == 0 then
          Committed(ct.(queue := ct.queue[..g] + ct.queue[g + 1..]), LeftQueue(true))
        else
          Committed(ct.(queue := ct.queue[g := ct.queue[g] - Passes(party.holders)]), LeftQueue(false))
  }

  /** Timer zero: promote, else extend the same players, else clear. */
  function ExpireOn(ct: Court, r: Reads): Outcome<Court> {
    if !Overdue(ct, r.now) then Refused(NothingDue)
    else
      var p := PromoteNext(ct, r);
      var s := ct.session.value;
      if p.moved then Committed(p.court, Promoted(p.dropped))
      else if r.autoExtend && !ClosedAt(ct, r.now) && s.players <= r.usable then
        Committed(p.court.(session := Some(s.(endsAt := s.endsAt + r.minutes * MINUTE, extensions := s.extensions + 1))),
                  Extended)
      else Committed(p.court.(session := None), Cleared)
  }

  /** A window ends after it starts and starts at most five minutes in the past. */
  predicate ValidWindow(from: int, until: int, now: int) {
    from < until && now - 5 * MINUTE <= from
  }

  function CloseOn(ct: Court, from: int, until: int, r: Reads): Outcome<Court> {
    if !ValidWindow(from, until, r.now) then Refused(BadWindow)
    else
      var released := from <= r.now;
      Committed(Court(false, Some(Window(from, until)), ct.session, if released then [] else ct.queue),
                Closed(if released then |ct.queue| else 0))
  }

  function ReopenOn(ct: Court): Court {
    Court(false, None, ct.session, ct.queue)
  }

  function ReleaseOn(ct: Court, now: int): Court {
    if ClosedAt(ct, now) then ct.(queue := []) else ct
  }

  // ---- the step -------------------------------------------------------------

  function ResizeTo(club: Club, n: nat): Club {
    Club(n, map c | 1 <= c <= n :: if c in club.courts then club.courts[c] else FRESH_COURT)
  }

  predicate AllowedSize(req: Request) {
    match req
    case Join(_, party) => party.Size() == 2
    case Take(_, party) => party.Size() == 2 || party.Size() == 4
    case Enqueue(_, party) => party.Size() == 2 || party.Size() == 4
    case LeaveCourt(_, party) => party.Size() == 2 || party.Size() == 4
    case LeaveQueue(_, party) => party.Size() == 2 || party.Size() == 4
    case _ => true
  }

  /** The action's effect on its own court; `errors` covers resolution and placement. */
  function ActOn(ct: Court, req: Request, errors: seq<CredError>, r: Reads): Outcome<Court>
    requires !req.Resize? && AllowedSize(req)
  {
    match req
    case Take(_, party) => TakeOn(ct, party, errors, r)
    case Join(_, party) => JoinOn(ct, party, errors, r)
    case Enqueue(_, party) => EnqueueOn(ct, party, errors, r)
    case LeaveCourt(c, party) => LeaveCourtOn(ct, c, party, r)
    case LeaveQueue(c, party) => LeaveQueueOn(ct, c, party)
    case Expire(_) => ExpireOn(ct, r)
    case Close(_, from, until) => CloseOn(ct, from, until, r)
    case Reopen(_) => Committed(ReopenOn(ct), Reopened)
    case Release(_) => Committed(ReleaseOn(ct, r.now), Released)
  }

  predicate Places(req: Request) {
    req.Take? || req.Join? || req.Enqueue?
  }

  ghost function Errors(club: Club, req: Request): seq<CredError> {
    if Places(req) then req.party.errors + PlacementErrors(club, req.party.holders) else []
  }

  /** One whole transaction, executed atomically. */
  ghost function Step(club: Club, req: Request, r: Reads): Outcome<Club> {
    if !AllowedSize(req) then Refused(BadGroupSize)
    else if req.Resize? then
      if exists c :: c in club.courts && c > req.newCount && club.courts[c].session.Some? then Refused(GamesInPlay)
      else Committed(ResizeTo(club, req.newCount), Resized)
    else if req.court !in club.courts then Refused(MissingCourt(req, r))
    else
      match ActOn(club.courts[req.court], req, Errors(club, req), r)
      case Refused(reason) => Refused(reason)
      case Committed(ct, note) => Committed(club.(courts := club.courts[req.court := ct]), note)
  }

  /** How an action reports a court number that has no row; a closure's window is checked before. */
  function MissingCourt(req: Request, r: Reads): Refusal {
    match req
    case LeaveCourt(_, _) => NoGame
    case LeaveQueue(c, party) => Validation(party.errors + MissingErrors(c, NotInQueue, {}, party.holders))
    case Expire(_) => NothingDue
    case Close(_, from, until) => if ValidWindow(from, until, r.now) then NoSuchCourt else BadWindow
    case _ => NoSuchCourt
  }
}
