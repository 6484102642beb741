/**
 Timed closures: a closed court only drains, and the engine's boundary
 watermark misses no window start.
 */
module ClosureWatch {
  import opened Wrappers
  import opened CourtModel
  import opened CourtInvariant

  // ---- a closed court only drains -------------------------------------------

  /** A player's own leave, or timer zero. */
  ghost predicate Excuses(ct: Court, req: Request, r: Reads, x: PassId) {
    || (req.LeaveCourt? && x in Passes(req.party.holders))
    || (req.Expire? && Overdue(ct, r.now))
  }

  ghost predicate Drains(ct: Court, ct': Court) {
    && Players(ct') <= Players(ct)
    && |ct'.queue| <= |ct.queue|
    && Everyone(ct'.queue) <= Everyone(ct.queue)
    && (ct'.session.Some? ==> ct.session.Some? && ct'.session.value.(players := Players(ct)) == ct.session.value)
  }

  lemma EveryoneShrinks(q: seq<set<PassId>>, q': seq<set<PassId>>, from: seq<int>)
    requires |from| == |q'|
    requires forall i :: 0 <= i < |q'| ==> 0 <= from[i] < |q| && q'[i] <= q[from[i]]
    ensures Everyone(q') <= Everyone(q)
  {
  }

  lemma ClosedLeaveDrains(ct: Court, c: int, party: Party, r: Reads)
    requires ClosedAt(ct, r.now) && party.Distinct() && (party.Size() == 2 || party.Size() == 4)
    requires LeaveCourtOn(ct, c, party, r).Committed?
    ensures Drains(ct, LeaveCourtOn(ct, c, party, r).value)
    ensures forall x :: x in Players(ct) && x !in Players(LeaveCourtOn(ct, c, party, r).value) ==> x in Passes(party.holders)
  {
    var ct' := LeaveCourtOn(ct, c, party, r).value;
    var lost := |ct.queue| - |ct'.queue|;
    MissingErrorsComplete(c, NotOnCourt, Players(ct), party.holders);
    LeaveRemainder(Players(ct), party.holders);
    EveryoneShrinks(ct.queue, ct'.queue, seq(|ct'.queue|, i => i + lost));
  }

  lemma ClosedExpireDrains(ct: Court, r: Reads)
    requires ClosedAt(ct, r.now) && Overdue(ct, r.now)
    ensures Drains(ct, ExpireOn(ct, r).value)
  {
  }

  lemma LeaveQueueDrains(ct: Court, c: int, party: Party)
    requires party.Size() == 2 || party.Size() == 4
    requires LeaveQueueOn(ct, c, party).Committed?
    ensures Drains(ct, LeaveQueueOn(ct, c, party).value)
  {
  }

  lemma ClosedActDrains(ct: Court, req: Request, errors: seq<CredError>, r: Reads)
    requires ClosedAt(ct, r.now) && !req.Resize? && AllowedSize(req) && DistinctParty(req)
    requires ActOn(ct, req, errors, r).Committed?
    ensures Drains(ct, ActOn(ct, req, errors, r).value)
    ensures forall x :: x in Players(ct) && x !in Players(ActOn(ct, req, errors, r).value) ==> Excuses(ct, req, r, x)
  {
    match req
    case LeaveCourt(c, party) => ClosedLeaveDrains(ct, c, party, r);
    case LeaveQueue(c, party) => LeaveQueueDrains(ct, c, party);
    case Expire(_) => ClosedExpireDrains(ct, r);
    case _ =>
  }

  /** The court exists and is closed whenever a call of the run arrives. */
  ghost predicate ClosedThroughout(club: Club, calls: seq<Call>, c: int) {
    calls == [] ||
    var init, last := calls[..|calls| - 1], calls[|calls| - 1];
    && ClosedThroughout(club, init, c)
    && c in Run(club, init).courts
    && ClosedAt(Run(club, init).courts[c], last.read.now)
  }

  ghost predicate ExcusedDuring(club: Club, calls: seq<Call>, c: int, x: PassId) {
    exists k :: 0 <= k < |calls| && ExcusedAt(club, calls, c, x, k)
  }

  ghost predicate ExcusedAt(club: Club, calls: seq<Call>, c: int, x: PassId, k: nat)
    requires k < |calls|
  {
    && !calls[k].req.Resize? && calls[k].req.court == c && c in Run(club, calls[..k]).courts
    && Excuses(Run(club, calls[..k]).courts[c], calls[k].req, calls[k].read, x)
  }

  /** One call on a closed court. */
  lemma ClosedCallDrains(club: Club, call: Call, c: int)
    requires DistinctParty(call.req)
    requires c in club.courts && ClosedAt(club.courts[c], call.read.now) && c in After(club, call).courts
    ensures Drains(club.courts[c], After(club, call).courts[c])
    ensures forall x :: x in Players(club.courts[c]) && x !in Players(After(club, call).courts[c]) ==>
                          && !call.req.Resize? && call.req.court == c
                          && Excuses(club.courts[c], call.req, call.read, x)
  {
    var ct := club.courts[c];
    if !call.req.Resize? && call.req.court == c && AllowedSize(call.req) {
      var errors := Errors(club, call.req);
      if ActOn(ct, call.req, errors, call.read).Committed? {
        ClosedActDrains(ct, call.req, errors, call.read);
      }
    }
  }

  /**
   While a court stays closed its players and queue never grow, its timer never
   moves, nobody is promoted, and a player leaves only by their own leave or at
   timer zero.
   */
  lemma {:induction false} ClosedCourtOnlyDrains(club: Club, calls: seq<Call>, c: int)
    requires ProperCalls(calls) && ClosedThroughout(club, calls, c)
    requires c in club.courts && c in Run(club, calls).courts
    ensures Drains(club.courts[c], Run(club, calls).courts[c])
    ensures forall x :: x in Players(club.courts[c]) && x !in Players(Run(club, calls).courts[c]) ==>
                          ExcusedDuring(club, calls, c, x)
  {
    if calls != [] {
      var init, last := calls[..|calls| - 1], calls[|calls| - 1];
      var before := Run(club, init);
      ClosedCourtOnlyDrains(club, init, c);
      ClosedCallDrains(before, last, c);
      forall x | x in Players(club.courts[c]) && x !in Players(Run(club, calls).courts[c])
        ensures ExcusedDuring(club, calls, c, x)
      {
        if x in Players(before.courts[c]) {
          assert ExcusedAt(club, calls, c, x, |calls| - 1);
        } else {
          var k :| 0 <= k < |init| && ExcusedAt(club, init, c, x, k);
          assert calls[..k] == init[..k];
          assert ExcusedAt(club, calls, c, x, k);
        }
      }
    }
  }

  // ---- the boundary watermark -----------------------------------------------

  /** How far back the first pass after a start looks: 25 hours. */
  const LOOKBACK: int := 25 * 60 * MINUTE

  /** The engine's watermark (none after a start) over the club it watches. */
  datatype Engine = Engine(mark: Option<int>, club: Club)

  function Since(mark: Option<int>, now: int): int {
    if mark.Some? then mark.value else now - LOOKBACK
  }

  predicate StartsIn(ct: Court, since: int, now: int) {
    ct.window.Some? && since < ct.window.value.from <= now
  }

  /** Courts whose window started since the watermark. */
  function Due(e: Engine, now: int): set<int> {
    set c | c in e.club.courts && StartsIn(e.club.courts[c], Since(e.mark, now), now)
  }

  function ReleaseAll(club: Club, due: set<int>, at: int): Club {
    club.(courts := map c | c in club.courts :: if c in due then ReleaseOn(club.courts[c], at) else club.courts[c])
  }

  /**
   A pass reads the clock (`now`), scans, and releases under the court locks a
   little later (`at`). A failed pass may already have released some courts.
   */
  datatype Event =
    | Transaction(call: Call)
    | Pass(now: int, at: int)
    | FailedPass(now: int, at: int, done: set<int>)
    | Restart

  ghost function Next(e: Engine, ev: Event): Engine {
    match ev
    case Transaction(call) => e.(club := After(e.club, call))
    case Pass(now, at) => Engine(Some(now), ReleaseAll(e.club, Due(e, now), at))
    case FailedPass(now, at, done) => e.(club := ReleaseAll(e.club, Due(e, now) * done, at))
    case Restart => e.(mark := None)
  }

  ghost function Watch(e: Engine, evs: seq<Event>): Engine {
    if evs == [] then e else Next(Watch(e, evs[..|evs| - 1]), evs[|evs| - 1])
  }

  ghost predicate NoPassAfter(evs: seq<Event>, f: int) {
    forall i :: 0 <= i < |evs| && evs[i].Pass? ==> evs[i].now < f
  }

  /** Until a pass at or after `f` succeeds, the watermark stays before `f`. */
  lemma {:induction false} MarkStaysBehind(e: Engine, evs: seq<Event>, f: int)
    requires NoPassAfter(evs, f) && (e.mark.Some? ==> e.mark.value < f)
    ensures var mark := Watch(e, evs).mark; mark.Some? ==> mark.value < f
  {
    if evs != [] {
      MarkStaysBehind(e, evs[..|evs| - 1], f);
    }
  }

  ghost predicate NoRestartFrom(evs: seq<Event>, i: nat) {
    forall j :: i <= j < |evs| ==> !evs[j].Restart?
  }

  /** Event i is a successful pass, and the engine has not restarted since. */
  ghost predicate KeptFrom(evs: seq<Event>, i: nat) {
    i < |evs| && evs[i].Pass? && NoRestartFrom(evs, i)
  }

  /** The engine has a watermark exactly if some pass succeeded, or it had one to begin with, and no restart came after. */
  lemma {:induction false} MarkSurvivesExactlyWhen(e: Engine, evs: seq<Event>)
    ensures Watch(e, evs).mark.Some? <==>
              (exists i: nat :: KeptFrom(evs, i)) || (e.mark.Some? && NoRestartFrom(evs, 0))
  {
    if evs != [] {
      var init, n := evs[..|evs| - 1], |evs| - 1;
      MarkSurvivesExactlyWhen(e, init);
      if evs[n].Pass? {
        assert KeptFrom(evs, n);
      } else if !evs[n].Restart? {
        assert forall i: nat :: i <= n ==> (NoRestartFrom(evs, i) <==> NoRestartFrom(init, i));
        assert forall i: nat :: KeptFrom(evs, i) <==> KeptFrom(init, i);
      }
    }
  }

  /**
   No gap: a window start stored before its own instant is scanned by the first
   successful pass at or after it, unless the engine lost its watermark and
   that pass comes 25 hours or more late.
   */
  lemma FirstPassScans(e: Engine, evs: seq<Event>, c: int, w: Window, now: int)
    requires e.mark.Some? ==> e.mark.value < w.from
    requires NoPassAfter(evs, w.from) && w.from <= now
    requires c in Watch(e, evs).club.courts && Watch(e, evs).club.courts[c].window == Some(w)
    ensures c in Due(Watch(e, evs), now) <==> Watch(e, evs).mark.Some? || now - w.from < 25 * 3_600_000
  {
    MarkStaysBehind(e, evs, w.from);
  }

  /** Rescanning: a later release of courts already released changes nothing. */
  lemma RescanChangesNothing(club: Club, due: set<int>, at: int, due': set<int>, at': int)
    requires due' <= due
    requires forall c :: c in due' && c in club.courts && ClosedAt(club.courts[c], at') ==> ClosedAt(club.courts[c], at)
    ensures ReleaseAll(ReleaseAll(club, due, at), due', at') == ReleaseAll(club, due, at)
  {
    var once := ReleaseAll(club, due, at);
    var twice := ReleaseAll(once, due', at');
    forall c | c in club.courts ensures twice.courts[c] == once.courts[c] {
      assert once.courts[c] == if c in due then ReleaseOn(club.courts[c], at) else club.courts[c];
    }
    assert twice.courts == once.courts;
  }

  predicate EventFinds(ct: Court, ev: Event) {
    match ev
    case Transaction(call) => ClosedAt(ct, call.read.now)
    case _ => true
  }

  ghost predicate ProperEvents(evs: seq<Event>) {
    forall i :: 0 <= i < |evs| && evs[i].Transaction? ==> DistinctParty(evs[i].call.req)
  }

  /** The court exists throughout and every transaction finds it closed. */
  ghost predicate StaysClosed(e: Engine, evs: seq<Event>, c: int) {
    && c in Watch(e, evs).club.courts
    && (evs != [] ==>
          && StaysClosed(e, evs[..|evs| - 1], c)
          && EventFinds(Watch(e, evs[..|evs| - 1]).club.courts[c], evs[|evs| - 1]))
  }

  lemma {:induction false} ReleasedQueueStaysEmpty(e: Engine, evs: seq<Event>, c: int)
    requires ProperEvents(evs) && StaysClosed(e, evs, c)
    requires c in e.club.courts && e.club.courts[c].queue == []
    ensures Watch(e, evs).club.courts[c].queue == []
  {
    if evs != [] {
      var init, last := evs[..|evs| - 1], evs[|evs| - 1];
      ReleasedQueueStaysEmpty(e, init, c);
      if last.Transaction? {
        ClosedCallDrains(Watch(e, init).club, last.call, c);
      }
    }
  }

  /** Courts of `due` exist, have no queue and stay closed through the events. */
  ghost predicate Drained(e: Engine, evs: seq<Event>, due: set<int>) {
    forall c :: c in due ==> c in e.club.courts && e.club.courts[c].queue == [] && StaysClosed(e, evs, c)
  }

  /**
   Scanning released courts again later changes nothing more, whatever
   transactions, passes, failures and restarts lie in between, while they are
   still closed.
   */
  lemma LaterRescanChangesNothing(e: Engine, evs: seq<Event>, due: set<int>, at: int)
    requires ProperEvents(evs) && Drained(e, evs, due)
    ensures ReleaseAll(Watch(e, evs).club, due, at) == Watch(e, evs).club
  {
    var club := Watch(e, evs).club;
    forall c | c in club.courts && c in due ensures ReleaseOn(club.courts[c], at) == club.courts[c] {
      ReleasedQueueStaysEmpty(e, evs, c);
    }
    assert ReleaseAll(club, due, at).courts == club.courts;
  }

  /** The clock never goes back. */
  ghost predicate Forward(evs: seq<Event>, start: int, end: int) {
    if evs == [] then start <= end
    else
      var last := evs[|evs| - 1];
      match last
      case Transaction(call) => Forward(evs[..|evs| - 1], start, call.read.now) && call.read.now <= end
      case Pass(now, at) => Forward(evs[..|evs| - 1], start, now) && now <= at <= end
      case FailedPass(now, at, _) => Forward(evs[..|evs| - 1], start, now) && now <= at <= end
      case Restart => Forward(evs[..|evs| - 1], start, end)
  }

  /** With a forward clock the watermark is never ahead of it, so a start stored in the future is ahead of the mark. */
  lemma {:induction false} MarkBehindClock(e: Engine, evs: seq<Event>, start: int, end: int)
    requires Forward(evs, start, end) && (e.mark.Some? ==> e.mark.value <= start)
    ensures start <= end
    ensures var mark := Watch(e, evs).mark; mark.Some? ==> mark.value <= end
  {
    if evs != [] {
      var last := evs[|evs| - 1];
      var mid := match last case Transaction(call) => call.read.now case Pass(now, _) => now
                            case FailedPass(now, _, _) => now case Restart => end;
      MarkBehindClock(e, evs[..|evs| - 1], start, mid);
    }
  }

  /**
   A future-dated closure releases its queue. The window is on the court by the
   instant `stored`, before it starts; no pass succeeds at or after the start
   until the one at `now`, which finds the court still closed; and the queue is
   empty from then on for as long as transactions find the court closed.
   */
  lemma ClosureReleasesQueue(e: Engine, past: seq<Event>, start: int, stored: int, early: seq<Event>,
                             c: int, w: Window, now: int, at: int, later: seq<Event>)
    requires e.mark.Some? ==> e.mark.value <= start
    requires Forward(past, start, stored) && stored < w.from
    requires NoPassAfter(early, w.from) && w.from <= now <= at < w.until
    requires Watch(Watch(e, past), early).mark.Some? || now < w.from + LOOKBACK
    requires c in Watch(Watch(e, past), early).club.courts && Watch(Watch(e, past), early).club.courts[c].window == Some(w)
    requires ProperEvents(later) && StaysClosed(Next(Watch(Watch(e, past), early), Pass(now, at)), later, c)
    ensures Watch(Next(Watch(Watch(e, past), early), Pass(now, at)), later).club.courts[c].queue == []
  {
    MarkBehindClock(e, past, start, stored);
    FirstPassScans(Watch(e, past), early, c, w, now);
    ReleasedQueueStaysEmpty(Next(Watch(Watch(e, past), early), Pass(now, at)), later, c);
  }

  // ---- a missed start -------------------------------------------------------

  const FOUR := Party([Holder("a", 1), Holder("b", 2), Holder("c", 3), Holder("d", 4)], [])

  const PAIR := Party([Holder("e", 5), Holder("f", 6)], [])

  function ReadsAt(now: int): Reads {
    Reads(now, 45, 3, true, {1, 2, 3, 4, 5, 6})
  }

  /** A new club of c courts but for court c. */
  function Only(c: nat, ct: Court): Club
    requires c >= 1
  {
    NewClub(c).(courts := NewClub(c).courts[c := ct])
  }

  lemma WatchAppends(e: Engine, evs: seq<Event>, ev: Event)
    ensures Watch(e, evs + [ev]) == Next(Watch(e, evs), ev)
  {
    assert (evs + [ev])[..|evs|] == evs;
  }

  lemma NobodyElsewhere(c: nat, ct: Court, req: Request)
    requires c >= 1
    requires Places(req) ==> req.party.errors == [] && forall x :: x in Passes(req.party.holders) ==> !OnRoster(ct, x)
    ensures Errors(Only(c, ct), req) == []
  {
    var club := Only(c, ct);
    if Places(req) {
      forall d, x | d in club.courts && x in Passes(req.party.holders) ensures !OnRoster(club.courts[d], x) {
        assert d != c ==> club.courts[d] == FRESH_COURT;
      }
      PlacementErrorsComplete(club, req.party.holders);
      hide Passes, OnRoster, PlacementErrors;
    }
  }

  /** A call on court c of an otherwise empty club. */
  lemma CallOnOnly(c: nat, ct: Court, req: Request, r: Reads)
    requires c >= 1 && !req.Resize? && req.court == c && AllowedSize(req)
    requires Places(req) ==> req.party.errors == [] && forall x :: x in Passes(req.party.holders) ==> !OnRoster(ct, x)
    requires ActOn(ct, req, [], r).Committed?
    ensures After(Only(c, ct), Call(req, r)) == Only(c, ActOn(ct, req, [], r).value)
  {
    NobodyElsewhere(c, ct, req);
    hide ActOn, Errors, Passes, OnRoster;
  }

  /** Court c of the run below: taken, with a pair waiting, with its future closure, and after the group left. */
  function Taken(w: Window): Court {
    Court(false, None, Some(FreshSession({1, 2, 3, 4}, ReadsAt(w.from - MINUTE))), [])
  }

  function Waiting(w: Window): Court {
    Taken(w).(queue := [{5, 6}])
  }

  function Closing(w: Window): Court {
    Waiting(w).(window := Some(w))
  }

  function Stranded(w: Window): Court {
    Court(false, Some(w), None, [{5, 6}])
  }

  function TakeCall(c: nat, w: Window): Call {
    Call(Take(c, FOUR), ReadsAt(w.from - MINUTE))
  }

  function QueueCall(c: nat, w: Window): Call {
    Call(Enqueue(c, PAIR), ReadsAt(w.from - MINUTE))
  }

  function CloseCall(c: nat, w: Window): Call {
    Call(Close(c, w.from, w.until), ReadsAt(w.from - MINUTE))
  }

  function LeaveCall(c: nat, w: Window): Call {
    Call(LeaveCourt(c, FOUR), ReadsAt(w.from))
  }

  lemma TheFour()
    ensures Passes(FOUR.holders) == {1, 2, 3, 4} && |{1, 2, 3, 4}| == 4
  {
    PassesAppend([], Holder("a", 1));
    PassesAppend([Holder("a", 1)], Holder("b", 2));
    PassesAppend([Holder("a", 1), Holder("b", 2)], Holder("c", 3));
    PassesAppend([Holder("a", 1), Holder("b", 2), Holder("c", 3)], Holder("d", 4));
    assert Passes([]) == {};
    hide Passes;
  }

  lemma ThePair()
    ensures Passes(PAIR.holders) == {5, 6}
  {
    PassesAppend([], Holder("e", 5));
    PassesAppend([Holder("e", 5)], Holder("f", 6));
    assert Passes([]) == {};
    hide Passes;
  }

  lemma PassesAppend(hs: seq<Holder>, h: Holder)
    ensures Passes(hs + [h]) == Passes(hs) + {h.pass}
  {
  }

  lemma TakeStarts(c: nat, w: Window)
    requires c >= 1
    ensures After(Only(c, FRESH_COURT), TakeCall(c, w)) == Only(c, Taken(w))
  {
    TheFour();
    hide Passes, FreshSession, Only, After;
    CallOnOnly(c, FRESH_COURT, Take(c, FOUR), ReadsAt(w.from - MINUTE));
  }

  lemma PairWaits(c: nat, w: Window)
    requires c >= 1
    ensures After(Only(c, Taken(w)), QueueCall(c, w)) == Only(c, Waiting(w))
  {
    TheFour();
    ThePair();
    hide Passes, Only, After;
    assert Taken(w).queue + [{5, 6}] == [{5, 6}];
    CallOnOnly(c, Taken(w), Enqueue(c, PAIR), ReadsAt(w.from - MINUTE));
  }

  lemma ClosureIsStored(c: nat, w: Window)
    requires c >= 1 && w.from < w.until
    ensures After(Only(c, Waiting(w)), CloseCall(c, w)) == Only(c, Closing(w))
  {
    hide Only, After, FreshSession;
    CallOnOnly(c, Waiting(w), Close(c, w.from, w.until), ReadsAt(w.from - MINUTE));
  }

  /** The group leaves its closed court: nobody is promoted, and the pair keeps waiting. */
  lemma GroupLeaves(c: nat, w: Window)
    requires c >= 1 && w.from < w.until
    ensures After(Only(c, Closing(w)), LeaveCall(c, w)) == Only(c, Stranded(w))
  {
    TheFour();
    MissingErrorsComplete(c, NotOnCourt, {1, 2, 3, 4}, FOUR.holders);
    hide Passes, Only, After, MissingErrors;
    var r := ReadsAt(w.from);
    assert {5, 6} <= r.usable && Closing(w).queue[0] == {5, 6};
    assert PromoteNext(Closing(w), r).court.queue == Closing(w).queue && !PromoteNext(Closing(w), r).moved;
    assert ActOn(Closing(w), LeaveCourt(c, FOUR), [], r).value == Stranded(w);
    CallOnOnly(c, Closing(w), LeaveCourt(c, FOUR), ReadsAt(w.from));
  }

  /** The events: a future-dated closure, the group leaving as it starts, a restart, a first pass 25 hours late. */
  function MissedStart(c: nat, w: Window): seq<Event> {
    [Transaction(TakeCall(c, w))] + [Transaction(QueueCall(c, w))] + [Transaction(CloseCall(c, w))]
    + [Transaction(LeaveCall(c, w))] + [Restart] + [Pass(w.from + LOOKBACK, w.from + LOOKBACK)]
  }

  lemma WatchBeforeLatePass(c: nat, w: Window)
    requires c >= 1 && w.from < w.until
    ensures Watch(Engine(None, NewClub(c)), MissedStart(c, w)[..5]) == Engine(None, Only(c, Stranded(w)))
  {
    var take, wait := Transaction(TakeCall(c, w)), Transaction(QueueCall(c, w));
    var close, leave := Transaction(CloseCall(c, w)), Transaction(LeaveCall(c, w));
    var e := Engine(None, NewClub(c));
    assert NewClub(c) == Only(c, FRESH_COURT);
    TakeStarts(c, w);
    PairWaits(c, w);
    ClosureIsStored(c, w);
    GroupLeaves(c, w);
    assert Watch(e, []) == e;
    hide Watch, After, Only, NewClub, Taken, Waiting, Closing, Stranded, TakeCall, QueueCall, CloseCall, LeaveCall;
    WatchAppends(e, [], take);
    WatchAppends(e, [] + [take], wait);
    WatchAppends(e, [] + [take] + [wait], close);
    WatchAppends(e, [] + [take] + [wait] + [close], leave);
    WatchAppends(e, [] + [take] + [wait] + [close] + [leave], Restart);
    assert MissedStart(c, w)[..5] == [] + [take] + [wait] + [close] + [leave] + [Restart];
  }

  lemma CallMovesClock(evs: seq<Event>, call: Call, start: int, end: int)
    requires Forward(evs, start, call.read.now) && call.read.now <= end
    ensures Forward(evs + [Transaction(call)], start, end)
  {
    assert (evs + [Transaction(call)])[..|evs|] == evs;
  }

  lemma MissedStartIsARun(c: nat, w: Window)
    ensures ProperEvents(MissedStart(c, w)) && Forward(MissedStart(c, w), w.from - MINUTE, w.from + LOOKBACK)
  {
    var evs, t := MissedStart(c, w), w.from - MINUTE;
    assert FOUR.Distinct() && PAIR.Distinct();
    hide FreshSession;
    CallMovesClock([], TakeCall(c, w), t, t);
    CallMovesClock([] + [Transaction(TakeCall(c, w))], QueueCall(c, w), t, t);
    CallMovesClock([] + [Transaction(TakeCall(c, w))] + [Transaction(QueueCall(c, w))], CloseCall(c, w), t, w.from);
    CallMovesClock([] + [Transaction(TakeCall(c, w))] + [Transaction(QueueCall(c, w))] + [Transaction(CloseCall(c, w))],
                   LeaveCall(c, w), t, w.from + LOOKBACK);
    assert evs[..5][..4] == evs[..4] == [] + [Transaction(TakeCall(c, w))] + [Transaction(QueueCall(c, w))]
                                        + [Transaction(CloseCall(c, w))] + [Transaction(LeaveCall(c, w))];
  }

  /**
   The condition above is needed: in a run from a new club, a first pass 25
   hours after the start leaves a usable group waiting on a closed court with
   no session.
   */
  lemma LateRestartMissesStart(c: nat, w: Window)
    requires c >= 1 && w.from + LOOKBACK < w.until
    ensures ProperEvents(MissedStart(c, w)) && Forward(MissedStart(c, w), w.from - MINUTE, w.from + LOOKBACK)
    ensures var e := Watch(Engine(None, NewClub(c)), MissedStart(c, w));
            && c in e.club.courts && e.club.courts[c].session.None?
            && ClosedAt(e.club.courts[c], w.from + LOOKBACK) && e.club.courts[c].queue == [{5, 6}]
  {
    MissedStartIsARun(c, w);
    WatchBeforeLatePass(c, w);
    var late := Pass(w.from + LOOKBACK, w.from + LOOKBACK);
    assert MissedStart(c, w) == MissedStart(c, w)[..5] + [late];
    WatchAppends(Engine(None, NewClub(c)), MissedStart(c, w)[..5], late);
    hide MissedStart, Watch;
  }
}
