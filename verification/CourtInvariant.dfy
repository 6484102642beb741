/**
 What every step of the court machine keeps: a pass has at most one place in
 the club, every group has exactly 2 or 4 passes, and the court rows are
 exactly 1..count.
 */
module CourtInvariant {
  import opened Wrappers
  import opened CourtModel

  ghost predicate GoodGroup(g: set<PassId>) {
    |g| == 2 || |g| == 4
  }

  ghost predicate OnRoster(ct: Court, x: PassId) {
    x in Players(ct) || InLine(ct, x)
  }

  /** One court: group sizes, and no pass in two of its places. */
  ghost predicate Tidy(ct: Court) {
    && (ct.session.Some? ==> GoodGroup(ct.session.value.players))
    && (forall i :: 0 <= i < |ct.queue| ==> GoodGroup(ct.queue[i]))
    && (forall i, x :: 0 <= i < |ct.queue| && x in ct.queue[i] ==> x !in Players(ct))
    && (forall i, j, x :: 0 <= i < j < |ct.queue| && x in ct.queue[i] ==> x !in ct.queue[j])
  }

  ghost predicate WellFormed(club: Club) {
    && (forall c :: c in club.courts <==> 1 <= c <= club.count)
    && (forall c :: c in club.courts ==> Tidy(club.courts[c]))
    && (forall c, d, x :: c in club.courts && d in club.courts && c != d && OnRoster(club.courts[c], x) ==>
          !OnRoster(club.courts[d], x))
  }

  ghost predicate Placed(club: Club, x: PassId) {
    exists c :: c in club.courts && OnRoster(club.courts[c], x)
  }

  ghost predicate DistinctParty(req: Request) {
    match req
    case Take(_, party) => party.Distinct()
    case Join(_, party) => party.Distinct()
    case Enqueue(_, party) => party.Distinct()
    case LeaveCourt(_, party) => party.Distinct()
    case LeaveQueue(_, party) => party.Distinct()
    case _ => true
  }

  // ---- parties --------------------------------------------------------------

  lemma {:induction false} PartySize(hs: seq<Holder>)
    requires forall i, j :: 0 <= i < j < |hs| ==> hs[i].pass != hs[j].pass
    ensures |Passes(hs)| == |hs|
  {
    if hs != [] {
      var init, last := hs[..|hs| - 1], hs[|hs| - 1];
      PartySize(init);
      PassesOfLast(hs);
      assert last.pass !in Passes(init);
    }
  }

  lemma PassesOfLast(hs: seq<Holder>)
    requires hs != []
    ensures Passes(hs) == Passes(hs[..|hs| - 1]) + {hs[|hs| - 1].pass}
  {
    assert hs == hs[..|hs| - 1] + [hs[|hs| - 1]];
  }

  lemma PlacementErrorComplete(club: Club, h: Holder)
    ensures PlacementError(club, h) == [] <==> !Placed(club, h.pass)
  {
    if Placed(club, h.pass) {
      var c :| c in club.courts && OnRoster(club.courts[c], h.pass);
      assert QueuedAt(club, c, h.pass) || PlayingAt(club, c, h.pass);
    }
  }

  /** No placement error means no pass of the party is placed anywhere, and conversely. */
  lemma {:induction false} PlacementErrorsComplete(club: Club, hs: seq<Holder>)
    ensures PlacementErrors(club, hs) == [] <==> forall x :: x in Passes(hs) ==> !Placed(club, x)
  {
    hide Placed, PlacementError;
    if hs != [] {
      var init, last := hs[..|hs| - 1], hs[|hs| - 1];
      PlacementErrorsComplete(club, init);
      PassesOfLast(hs);
      PlacementErrorComplete(club, last);
      hide Passes;
    }
  }

  /** No leave error means the whole party is present, and conversely. */
  lemma {:induction false} MissingErrorsComplete(c: int, code: CredCode, present: set<PassId>, hs: seq<Holder>)
    ensures MissingErrors(c, code, present, hs) == [] <==> Passes(hs) <= present
  {
    if hs != [] {
      var init, last := hs[..|hs| - 1], hs[|hs| - 1];
      MissingErrorsComplete(c, code, present, init);
      PassesOfLast(hs);
      hide Passes;
    }
  }

  /** Leavers are always a subset of what they leave, so the remainder cannot wrap below zero. */
  lemma LeaveRemainder(whole: set<PassId>, hs: seq<Holder>)
    requires forall i, j :: 0 <= i < j < |hs| ==> hs[i].pass != hs[j].pass
    requires Passes(hs) <= whole
    ensures |hs| <= |whole|
    ensures |whole - Passes(hs)| == |whole| - |hs|
  {
    PartySize(hs);
    assert whole == (whole - Passes(hs)) + Passes(hs);
  }

  // ---- one court ------------------------------------------------------------

  /** Passes an action may newly place. */
  function Newcomers(req: Request): set<PassId> {
    if Places(req) then Passes(req.party.holders) else {}
  }

  /** Taking passes and whole groups away keeps a court tidy; `from[i]` is where group i stood before. */
  lemma ShrinkKeepsTidy(ct: Court, ct': Court, from: seq<nat>)
    requires Tidy(ct) && Players(ct') <= Players(ct)
    requires ct'.session.Some? ==> GoodGroup(Players(ct'))
    requires |from| == |ct'.queue|
    requires forall i, j :: 0 <= i < j < |from| ==> from[i] < from[j]
    requires forall i :: 0 <= i < |from| ==> from[i] < |ct.queue| && ct'.queue[i] <= ct.queue[from[i]]
    requires forall i :: 0 <= i < |from| ==> GoodGroup(ct'.queue[i])
    ensures Tidy(ct')
    ensures forall x :: OnRoster(ct', x) ==> OnRoster(ct, x)
  {
  }

  lemma SuffixKeepsTidy(ct: Court, n: nat)
    requires Tidy(ct) && n <= |ct.queue|
    ensures Tidy(ct.(queue := ct.queue[n..]))
    ensures forall x :: OnRoster(ct.(queue := ct.queue[n..]), x) ==> OnRoster(ct, x)
  {
    ShrinkKeepsTidy(ct, ct.(queue := ct.queue[n..]), seq(|ct.queue| - n, i requires i >= 0 => i + n));
  }

  lemma HeadPlaysKeepsTidy(ct: Court, n: nat, s: Session)
    requires Tidy(ct) && n < |ct.queue| && s.players == ct.queue[n]
    ensures Tidy(ct.(session := Some(s), queue := ct.queue[n + 1..]))
    ensures forall x :: OnRoster(ct.(session := Some(s), queue := ct.queue[n + 1..]), x) ==> OnRoster(ct, x)
  {
  }

  lemma PromoteKeepsTidy(ct: Court, r: Reads)
    requires Tidy(ct)
    ensures Tidy(PromoteNext(ct, r).court)
    ensures forall x :: OnRoster(PromoteNext(ct, r).court, x) ==> OnRoster(ct, x)
  {
    var k := FirstUsable(ct.queue, r.usable);
    if PromoteNext(ct, r).moved {
      HeadPlaysKeepsTidy(ct, k, FreshSession(ct.queue[k], r));
    } else {
      SuffixKeepsTidy(ct, k);
    }
  }

  lemma ClearKeepsTidy(ct: Court)
    requires Tidy(ct)
    ensures Tidy(ct.(session := None))
    ensures forall x :: OnRoster(ct.(session := None), x) ==> OnRoster(ct, x)
  {
  }

  lemma LeaveCourtKeepsTidy(ct: Court, c: int, party: Party, r: Reads)
    requires Tidy(ct) && party.Distinct() && (party.Size() == 2 || party.Size() == 4)
    requires LeaveCourtOn(ct, c, party, r).Committed?
    ensures Tidy(LeaveCourtOn(ct, c, party, r).value)
    ensures forall x :: OnRoster(LeaveCourtOn(ct, c, party, r).value, x) ==> OnRoster(ct, x)
  {
    var s := ct.session.value;
    MissingErrorsComplete(c, NotOnCourt, s.players, party.holders);
    LeaveRemainder(s.players, party.holders);
    if |s.players| - |party.holders| == 2 {
      ShrinkKeepsTidy(ct, LeaveCourtOn(ct, c, party, r).value, seq(|ct.queue|, i => i));
    } else {
      PromoteKeepsTidy(ct, r);
      ClearKeepsTidy(PromoteNext(ct, r).court);
    }
  }

  lemma GroupGoneKeepsTidy(ct: Court, g: nat)
    requires Tidy(ct) && g < |ct.queue|
    ensures Tidy(ct.(queue := ct.queue[..g] + ct.queue[g + 1..]))
    ensures forall x :: OnRoster(ct.(queue := ct.queue[..g] + ct.queue[g + 1..]), x) ==> OnRoster(ct, x)
  {
    ShrinkKeepsTidy(ct, ct.(queue := ct.queue[..g] + ct.queue[g + 1..]),
                    seq(|ct.queue| - 1, i => if i >= g then i + 1 else i));
  }

  lemma PairGoneKeepsTidy(ct: Court, g: nat, rest: set<PassId>)
    requires Tidy(ct) && g < |ct.queue| && rest <= ct.queue[g] && GoodGroup(rest)
    ensures Tidy(ct.(queue := ct.queue[g := rest]))
    ensures forall x :: OnRoster(ct.(queue := ct.queue[g := rest]), x) ==> OnRoster(ct, x)
  {
    ShrinkKeepsTidy(ct, ct.(queue := ct.queue[g := rest]), seq(|ct.queue|, i => i));
  }

  lemma LeaveQueueKeepsTidy(ct: Court, c: int, party: Party)
    requires Tidy(ct) && party.Distinct() && (party.Size() == 2 || party.Size() == 4)
    requires LeaveQueueOn(ct, c, party).Committed?
    ensures Tidy(LeaveQueueOn(ct, c, party).value)
    ensures forall x :: OnRoster(LeaveQueueOn(ct, c, party).value, x) ==> OnRoster(ct, x)
  {
    var g := GroupOf(ct.queue, party.holders[0].pass);
    LeaveRemainder(ct.queue[g], party.holders);
    hide Tidy, OnRoster;
    if |ct.queue[g]| == |party.holders| {
      GroupGoneKeepsTidy(ct, g);
    } else {
      PairGoneKeepsTidy(ct, g, ct.queue[g] - Passes(party.holders));
    }
  }

  lemma EnqueueKeepsTidy(ct: Court, g: set<PassId>)
    requires Tidy(ct) && GoodGroup(g)
    requires forall x :: x in g ==> !OnRoster(ct, x)
    ensures Tidy(ct.(queue := ct.queue + [g]))
    ensures forall x :: OnRoster(ct.(queue := ct.queue + [g]), x) ==> OnRoster(ct, x) || x in g
  {
  }

  lemma JoinKeepsTidy(ct: Court, g: set<PassId>)
    requires Tidy(ct) && ct.session.Some? && |Players(ct)| == 2 && |g| == 2
    requires forall x :: x in g ==> !OnRoster(ct, x)
    ensures Tidy(ct.(session := Some(ct.session.value.(players := Players(ct) + g))))
    ensures forall x :: OnRoster(ct.(session := Some(ct.session.value.(players := Players(ct) + g))), x)
                        ==> OnRoster(ct, x) || x in g
  {
  }

  lemma StartKeepsTidy(ct: Court, s: Session)
    requires Tidy(ct) && ct.session.None? && GoodGroup(s.players)
    requires forall x :: x in s.players ==> !OnRoster(ct, x)
    ensures Tidy(ct.(session := Some(s)))
    ensures forall x :: OnRoster(ct.(session := Some(s)), x) ==> OnRoster(ct, x) || x in s.players
  {
  }

  /** An action keeps its court tidy and places nobody beyond its own party. */
  lemma ActKeepsTidy(ct: Court, req: Request, errors: seq<CredError>, r: Reads)
    requires Tidy(ct) && DistinctParty(req) && !req.Resize? && AllowedSize(req)
    requires errors == [] ==> forall x :: x in Newcomers(req) ==> !OnRoster(ct, x)
    requires Places(req) && errors == [] ==> req.party.errors == []
    requires ActOn(ct, req, errors, r).Committed?
    ensures Tidy(ActOn(ct, req, errors, r).value)
    ensures forall x :: OnRoster(ActOn(ct, req, errors, r).value, x) ==> OnRoster(ct, x) || x in Newcomers(req)
  {
    var ct' := ActOn(ct, req, errors, r).value;
    match req
    case Take(_, party) =>
      PartySize(party.holders);
      StartKeepsTidy(ct, FreshSession(Passes(party.holders), r));
    case Join(_, party) =>
      PartySize(party.holders);
      JoinKeepsTidy(ct, Passes(party.holders));
    case Enqueue(_, party) =>
      PartySize(party.holders);
      EnqueueKeepsTidy(ct, Passes(party.holders));
    case LeaveCourt(c, party) => LeaveCourtKeepsTidy(ct, c, party, r);
    case LeaveQueue(c, party) => LeaveQueueKeepsTidy(ct, c, party);
    case Expire(_) =>
      PromoteKeepsTidy(ct, r);
      var mid := PromoteNext(ct, r).court;
      ClearKeepsTidy(mid);
      if ct'.session.Some? && !PromoteNext(ct, r).moved {
        ShrinkKeepsTidy(mid, ct', seq(|mid.queue|, i => i));
      }
    case Close(_, _, _) => ShrinkKeepsTidy(ct, ct', seq(|ct'.queue|, i => i));
    case Reopen(_) => ShrinkKeepsTidy(ct, ct', seq(|ct'.queue|, i => i));
    case Release(_) => ShrinkKeepsTidy(ct, ct', seq(|ct'.queue|, i => i));
  }

  // ---- the whole club -------------------------------------------------------

  lemma NewcomersUnplaced(club: Club, req: Request)
    requires Errors(club, req) == []
    ensures forall c, x :: c in club.courts && x in Newcomers(req) ==> !OnRoster(club.courts[c], x)
  {
    if Places(req) {
      PlacementErrorsComplete(club, req.party.holders);
    }
  }

  /** Replacing one court keeps the club well formed if it stays tidy and only unplaced passes arrive. */
  lemma ReplaceCourtKeepsWellFormed(club: Club, c: int, ct: Court, arriving: set<PassId>)
    requires WellFormed(club) && c in club.courts && Tidy(ct)
    requires forall d, x :: d in club.courts && x in arriving ==> !OnRoster(club.courts[d], x)
    requires forall x :: OnRoster(ct, x) ==> OnRoster(club.courts[c], x) || x in arriving
    ensures WellFormed(club.(courts := club.courts[c := ct]))
  {
  }

  /** The invariant step: any request with any reads keeps the club well formed. */
  lemma StepKeepsWellFormed(club: Club, req: Request, r: Reads)
    requires WellFormed(club) && DistinctParty(req)
    requires Step(club, req, r).Committed?
    ensures WellFormed(Step(club, req, r).value)
  {
    if req.Resize? {
      var club' := ResizeTo(club, req.newCount);
      forall c | c in club'.courts && c !in club.courts
        ensures Tidy(club'.courts[c]) && forall x :: !OnRoster(club'.courts[c], x)
      {
        assert club'.courts[c] == FRESH_COURT;
      }
    } else {
      var ct, errors := club.courts[req.court], Errors(club, req);
      if errors == [] {
        NewcomersUnplaced(club, req);
      }
      ActKeepsTidy(ct, req, errors, r);
      var ct' := ActOn(ct, req, errors, r).value;
      ReplaceCourtKeepsWellFormed(club, req.court, ct', if errors == [] then Newcomers(req) else {});
    }
  }

  // ---- runs -----------------------------------------------------------------

  datatype Call = Call(req: Request, read: Reads)

  /** The club after one call: a refused transaction rolls back. */
  ghost function After(club: Club, call: Call): Club {
    var o := Step(club, call.req, call.read);
    if o.Committed? then o.value else club
  }

  ghost function Run(club: Club, calls: seq<Call>): Club {
    if calls == [] then club else After(Run(club, calls[..|calls| - 1]), calls[|calls| - 1])
  }

  ghost predicate ProperCalls(calls: seq<Call>) {
    forall i :: 0 <= i < |calls| ==> DistinctParty(calls[i].req)
  }

  function NewClub(count: nat): Club {
    ResizeTo(Club(0, map[]), count)
  }

  lemma {:induction false} RunKeepsWellFormed(club: Club, calls: seq<Call>)
    requires WellFormed(club) && ProperCalls(calls)
    ensures WellFormed(Run(club, calls))
  {
    if calls != [] {
      var init, last := calls[..|calls| - 1], calls[|calls| - 1];
      RunKeepsWellFormed(club, init);
      if Step(Run(club, init), last.req, last.read).Committed? {
        StepKeepsWellFormed(Run(club, init), last.req, last.read);
      }
    }
  }

  /** Places of a club: 0 is the court, p >= 1 is queue position p. */
  ghost function Seat(club: Club, c: int, p: nat): set<PassId> {
    if c !in club.courts then {}
    else if p == 0 then Players(club.courts[c])
    else if p <= |club.courts[c].queue| then club.courts[c].queue[p - 1]
    else {}
  }

  /**
   Safety of every run from a new club: one place per pass club-wide, groups of
   exactly 2 or 4, court rows exactly 1..count.
   */
  lemma EveryRunIsSafe(count: nat, calls: seq<Call>)
    requires ProperCalls(calls)
    ensures var club := Run(NewClub(count), calls);
            && (forall c :: c in club.courts <==> 1 <= c <= club.count)
            && (forall c, p, d, q, x :: x in Seat(club, c, p) && x in Seat(club, d, q) ==> c == d && p == q)
            && (forall c, p :: |Seat(club, c, p)| == 0 || |Seat(club, c, p)| == 2 || |Seat(club, c, p)| == 4)
  {
    assert forall c, x :: c in NewClub(count).courts ==> !OnRoster(NewClub(count).courts[c], x);
    RunKeepsWellFormed(NewClub(count), calls);
    var club := Run(NewClub(count), calls);
    forall c, p, x | x in Seat(club, c, p) ensures c in club.courts && OnRoster(club.courts[c], x) {
    }
  }

  lemma LeaveCourtNeverSplitsOddly(ct: Court, c: int, party: Party, r: Reads)
    requires Tidy(ct) && party.Distinct() && (party.Size() == 2 || party.Size() == 4)
    ensures LeaveCourtOn(ct, c, party, r) != Refused(OneOrThree)
  {
    MissingErrorsComplete(c, NotOnCourt, Players(ct), party.holders);
    if Passes(party.holders) <= Players(ct) {
      LeaveRemainder(Players(ct), party.holders);
    }
  }

  lemma LeaveQueueNeverSplitsOddly(ct: Court, c: int, party: Party)
    requires Tidy(ct) && party.Distinct() && (party.Size() == 2 || party.Size() == 4)
    ensures LeaveQueueOn(ct, c, party) != Refused(OneOrThree)
  {
    if party.errors == [] {
      var g := GroupOf(ct.queue, party.holders[0].pass);
      if g < |ct.queue| && Passes(party.holders) <= ct.queue[g] {
        LeaveRemainder(ct.queue[g], party.holders);
      }
    }
  }

  /** A leave never leaves 1 or 3 players behind: the refusal that says so is unreachable. */
  lemma LeaveNeverSplitsOddly(club: Club, req: Request, r: Reads)
    requires WellFormed(club) && DistinctParty(req)
    ensures Step(club, req, r) != Refused(OneOrThree)
  {
    if AllowedSize(req) && !req.Resize? && req.court in club.courts {
      var ct := club.courts[req.court];
      match req
      case LeaveCourt(c, party) => LeaveCourtNeverSplitsOddly(ct, c, party, r);
      case LeaveQueue(c, party) => LeaveQueueNeverSplitsOddly(ct, c, party);
      case _ =>
    }
  }
}
