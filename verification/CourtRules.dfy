/**
 The club's rules, each as the exact condition under which an action goes
 through, on the court and the placements it finds: who may take, join, queue
 and leave, what timer zero does, how long a closure lasts, and how far a queue
 may grow.
 */
module CourtRules {
  import opened Wrappers
  import opened CourtModel
  import opened CourtInvariant
  import QueueFairness

  /** Neither switched off nor inside its closure window, which excludes its end. */
  predicate Open(ct: Court, now: int) {
    !ct.closed && (ct.window.Some? ==> now < ct.window.value.from || ct.window.value.until <= now)
  }

  /** A party without credential errors, none of whose passes sits anywhere in the club. */
  ghost predicate Clean(club: Club, party: Party) {
    party.errors == [] && forall h :: h in party.holders ==> !Placed(club, h.pass)
  }

  lemma CleanHasNoErrors(club: Club, req: Request)
    requires Places(req)
    ensures Errors(club, req) == [] <==> Clean(club, req.party)
  {
    PlacementErrorsComplete(club, req.party.holders);
    assert forall h :: h in req.party.holders ==> h.pass in Passes(req.party.holders);
  }

  // ---- taking, joining, queueing --------------------------------------------

  /** A free, open court is taken by 2 or 4 players nobody has placed. */
  lemma TakeExactlyWhen(club: Club, c: int, party: Party, r: Reads)
    ensures Step(club, Take(c, party), r).Committed? <==>
              && (party.Size() == 2 || party.Size() == 4)
              && c in club.courts && Open(club.courts[c], r.now) && club.courts[c].session.None?
              && Clean(club, party)
  {
    CleanHasNoErrors(club, Take(c, party));
    hide Clean, Placed;
  }

  /** A running half game on an open court is joined by exactly 2, before its timer is at zero. */
  lemma JoinExactlyWhen(club: Club, c: int, party: Party, r: Reads)
    ensures Step(club, Join(c, party), r).Committed? <==>
              && party.Size() == 2
              && c in club.courts && Open(club.courts[c], r.now)
              && club.courts[c].session.Some? && r.now < club.courts[c].session.value.endsAt
              && |club.courts[c].session.value.players| == 2
              && Clean(club, party)
  {
    CleanHasNoErrors(club, Join(c, party));
    hide Clean, Placed;
  }

  /**
   A group queues behind four players on an open court while fewer than the
   club's depth wait; it gets the position behind all of them.
   */
  lemma EnqueueExactlyWhen(club: Club, c: int, party: Party, r: Reads)
    requires WellFormed(club)
    ensures Step(club, Enqueue(c, party), r).Committed? <==>
              && (party.Size() == 2 || party.Size() == 4)
              && c in club.courts && Open(club.courts[c], r.now)
              && club.courts[c].session.Some? && |club.courts[c].session.value.players| == 4
              && |club.courts[c].queue| < r.depth
              && Clean(club, party)
    ensures var o := Step(club, Enqueue(c, party), r);
            o.Committed? ==>
              && |o.value.courts[c].queue| == |club.courts[c].queue| + 1
              && o.note == Queued(|o.value.courts[c].queue|)
              && o.value.courts[c].queue[|club.courts[c].queue|] == Passes(party.holders)
  {
    CleanHasNoErrors(club, Enqueue(c, party));
    assert c in club.courts ==> Tidy(club.courts[c]);
    hide Clean, Placed, WellFormed;
  }

  /** Why a party of the right size is turned away from a court, when it is the court's state that decides. */
  lemma CourtRefusals(club: Club, req: Request, r: Reads)
    requires WellFormed(club) && Places(req) && AllowedSize(req) && req.court in club.courts
    ensures var ct, o := club.courts[req.court], Step(club, req, r);
            && (o == Refused(CourtClosed) <==> !Open(ct, r.now))
            && (o == Refused(CourtFree) <==> Open(ct, r.now) && !req.Take? && ct.session.None?)
            && (o == Refused(FinishingUp) <==>
                  Open(ct, r.now) && !req.Enqueue? && ct.session.Some? && ct.session.value.endsAt <= r.now)
            && (o == Refused(InPlay) <==>
                  Open(ct, r.now) && req.Take? && ct.session.Some? && r.now < ct.session.value.endsAt)
            && (o == Refused(NoHalfGame) <==>
                  Open(ct, r.now) && req.Join? && ct.session.Some? && r.now < ct.session.value.endsAt
                  && |ct.session.value.players| == 4)
            && (o == Refused(OpenSpots) <==>
                  Open(ct, r.now) && req.Enqueue? && ct.session.Some? && |ct.session.value.players| == 2)
            && (o == Refused(QueueFull) <==>
                  Open(ct, r.now) && req.Enqueue? && ct.session.Some? && |ct.session.value.players| == 4
                  && |ct.queue| >= r.depth)
  {
    assert Tidy(club.courts[req.court]);
    hide WellFormed, Errors;
  }

  /** Each placed pass of the party is reported under its holder's name with its place; nothing else is reported. */
  lemma {:induction false} PlacementErrorsExplain(club: Club, hs: seq<Holder>, e: CredError)
    requires WellFormed(club)
    ensures e in PlacementErrors(club, hs) <==>
              exists h :: h in hs && e.username == h.username && e.court.Some? && e.court.value in club.courts
                          && ((e.code == InQueue && InLine(club.courts[e.court.value], h.pass))
                              || (e.code == OnCourt && h.pass in Players(club.courts[e.court.value])))
  {
    if hs != [] {
      var init, last := hs[..|hs| - 1], hs[|hs| - 1];
      assert hs == init + [last];
      PlacementErrorsExplain(club, init, e);
      PlacementErrorExplains(club, last, e);
      hide PlacementError, WellFormed;
    }
  }

  lemma PlacementErrorExplains(club: Club, h: Holder, e: CredError)
    requires WellFormed(club)
    ensures e in PlacementError(club, h) <==>
              e.username == h.username && e.court.Some? && e.court.value in club.courts
              && ((e.code == InQueue && InLine(club.courts[e.court.value], h.pass))
                  || (e.code == OnCourt && h.pass in Players(club.courts[e.court.value])))
  {
    forall c, d | c in club.courts && d in club.courts && OnRoster(club.courts[c], h.pass) && OnRoster(club.courts[d], h.pass)
      ensures c == d && !(InLine(club.courts[c], h.pass) && h.pass in Players(club.courts[c]))
    {
      assert Tidy(club.courts[c]);
    }
    assert forall c :: QueuedAt(club, c, h.pass) ==> OnRoster(club.courts[c], h.pass);
    assert forall c :: PlayingAt(club, c, h.pass) ==> OnRoster(club.courts[c], h.pass);
    if e.court.Some? && e.court.value in club.courts {
      assert InLine(club.courts[e.court.value], h.pass) ==> QueuedAt(club, e.court.value, h.pass);
      assert h.pass in Players(club.courts[e.court.value]) ==> PlayingAt(club, e.court.value, h.pass);
    }
    hide WellFormed, InLine, Players;
  }

  // ---- leaving --------------------------------------------------------------

  /**
   Players of a running game leave together, closed court or not. The game ends
   exactly when all of them leave, and then the first usable group takes over
   exactly when the court is open and there is one.
   */
  lemma LeaveCourtExactlyWhen(club: Club, c: int, party: Party, r: Reads)
    requires WellFormed(club) && party.Distinct()
    ensures var o := Step(club, LeaveCourt(c, party), r);
            && (o.Committed? <==>
                  && (party.Size() == 2 || party.Size() == 4) && party.errors == []
                  && c in club.courts && club.courts[c].session.Some? && r.now < club.courts[c].session.value.endsAt
                  && Passes(party.holders) <= club.courts[c].session.value.players)
            && (o.Committed? ==>
                  var ct, ct' := club.courts[c], o.value.courts[c];
                  var ended := Passes(party.holders) == Players(ct);
                  && o.note == LeftCourt(ended, ended && Open(ct, r.now)
                                                && exists i :: 0 <= i < |ct.queue| && ct.queue[i] <= r.usable)
                  && (!ended ==> ct' == ct.(session := Some(ct.session.value.(players := Players(ct) - Passes(party.holders)))))
                  && (ended ==> (ct'.session.Some? <==> o.note.promoted)))
  {
    if c in club.courts && club.courts[c].session.Some? && AllowedSize(LeaveCourt(c, party)) {
      var players := club.courts[c].session.value.players;
      assert Tidy(club.courts[c]);
      MissingErrorsComplete(c, NotOnCourt, players, party.holders);
      if Passes(party.holders) <= players {
        LeaveRemainder(players, party.holders);
        assert players - Passes(party.holders) == {} <==> Passes(party.holders) == players;
      }
    }
    hide Passes, WellFormed, MissingErrors, Tidy;
  }

  /** Each absent leaver is reported under their name with the court; nothing else is. */
  lemma {:induction false} MissingErrorsExplain(c: int, code: CredCode, present: set<PassId>, hs: seq<Holder>, e: CredError)
    ensures e in MissingErrors(c, code, present, hs) <==>
              exists h :: h in hs && h.pass !in present && e == CredError(h.username, code, Some(c))
  {
    if hs != [] {
      var init, last := hs[..|hs| - 1], hs[|hs| - 1];
      assert hs == init + [last];
      MissingErrorsExplain(c, code, present, init, e);
    }
  }

  /** Why a party of the right size may not leave a court, or a queue. */
  lemma LeaveRefusals(club: Club, req: Request, r: Reads)
    requires (req.LeaveCourt? || req.LeaveQueue?) && AllowedSize(req)
    ensures var c, o := req.court, Step(club, req, r);
            && (o == Refused(NoGame) <==> req.LeaveCourt? && (c in club.courts ==> club.courts[c].session.None?))
            && (o == Refused(FinishingUp) <==>
                  req.LeaveCourt? && c in club.courts && club.courts[c].session.Some?
                  && club.courts[c].session.value.endsAt <= r.now)
            && (o.Refused? && o.reason.Validation? ==>
                  o.reason.errors == req.party.errors
                                     + if req.LeaveCourt? then
                                         MissingErrors(c, NotOnCourt, Players(club.courts[c]), req.party.holders)
                                       else
                                         MissingErrors(c, NotInQueue, if c in club.courts then Everyone(club.courts[c].queue) else {},
                                                       req.party.holders))
            && (o == Refused(DifferentGroups) ==>
                  req.LeaveQueue? && c in club.courts && Passes(req.party.holders) <= Everyone(club.courts[c].queue))
  {
    if req.LeaveQueue? && req.court in club.courts {
      MissingErrorsComplete(req.court, NotInQueue, Everyone(club.courts[req.court].queue), req.party.holders);
    }
    hide MissingErrors, Everyone, Passes, GroupOf, FirstUsable;
  }

  /** Members of one group in line leave it together; the group goes exactly when all of them leave. */
  lemma LeaveQueueExactlyWhen(club: Club, c: int, party: Party, r: Reads)
    requires WellFormed(club) && party.Distinct()
    ensures var o := Step(club, LeaveQueue(c, party), r);
            && (o.Committed? <==>
                  && (party.Size() == 2 || party.Size() == 4) && party.errors == [] && c in club.courts
                  && exists g :: 0 <= g < |club.courts[c].queue| && Passes(party.holders) <= club.courts[c].queue[g])
            && (o.Committed? ==>
                  exists g :: 0 <= g < |club.courts[c].queue| && Passes(party.holders) <= club.courts[c].queue[g]
                              && (o.note == LeftQueue(Passes(party.holders) == club.courts[c].queue[g])))
  {
    if c in club.courts && AllowedSize(LeaveQueue(c, party)) {
      assert Tidy(club.courts[c]);
      LeaveQueueGoesThrough(club.courts[c], c, party);
    } else if AllowedSize(LeaveQueue(c, party)) && party.errors == [] {
      MissingErrorsComplete(c, NotInQueue, {}, party.holders);
      PartySize(party.holders);
    }
    hide WellFormed, LeaveQueueOn, Passes, MissingErrors, Tidy;
  }

  lemma LeaveQueueGoesThrough(ct: Court, c: int, party: Party)
    requires Tidy(ct) && party.Distinct() && (party.Size() == 2 || party.Size() == 4)
    ensures var o, leaving := LeaveQueueOn(ct, c, party), Passes(party.holders);
            && (o.Committed? <==>
                  party.errors == [] && exists g :: 0 <= g < |ct.queue| && leaving <= ct.queue[g])
            && (o.Committed? ==>
                  exists g :: 0 <= g < |ct.queue| && leaving <= ct.queue[g]
                              && o.note == LeftQueue(leaving == ct.queue[g]))
  {
    var leaving := Passes(party.holders);
    MissingErrorsComplete(c, NotInQueue, Everyone(ct.queue), party.holders);
    if party.errors == [] {
      var x := party.holders[0].pass;
      assert x in leaving;
      var g := GroupOf(ct.queue, x);
      if i :| 0 <= i < |ct.queue| && leaving <= ct.queue[i] {
        assert i == g && leaving <= Everyone(ct.queue);
      }
      hide Tidy, MissingErrors, Everyone;
      if g < |ct.queue| && leaving <= ct.queue[g] {
        LeaveRemainder(ct.queue[g], party.holders);
        assert ct.queue[g] - leaving == {} <==> leaving == ct.queue[g];
        hide Passes;
      }
    }
  }

  /** A court number without a row: nothing to leave or expire, as on a court with nothing on it, and otherwise no such court. */
  lemma NoRowIsEmptyCourt(club: Club, req: Request, r: Reads)
    requires !req.Resize? && AllowedSize(req) && req.court !in club.courts
    ensures req.LeaveCourt? || req.LeaveQueue? || req.Expire? ==>
              Step(club, req, r) == Step(club.(courts := club.courts[req.court := FRESH_COURT]), req, r)
              && Step(club, req, r).Refused?
    ensures req.Close? && !(req.from < req.until && r.now - req.from <= 300_000) ==>
              Step(club, req, r) == Refused(BadWindow)
    ensures Places(req) || req.Reopen? || req.Release?
            || (req.Close? && req.from < req.until && r.now - req.from <= 300_000) ==>
              Step(club, req, r) == Refused(NoSuchCourt)
  {
    if req.LeaveQueue? {
      assert Everyone([]) == {};
      MissingErrorsComplete(req.court, NotInQueue, {}, req.party.holders);
      assert req.party.errors == [] ==> req.party.holders[0].pass in Passes(req.party.holders);
    }
    hide MissingErrors, Passes;
  }

  // ---- timer zero -----------------------------------------------------------

  /** Some waiting group has only usable passes. */
  ghost predicate SomeoneCanPlay(ct: Court, usable: set<PassId>) {
    exists i :: 0 <= i < |ct.queue| && ct.queue[i] <= usable
  }

  /** Group k plays next: it is usable and every group ahead of it holds an unusable pass. */
  ghost predicate PlaysNext(ct: Court, usable: set<PassId>, k: nat) {
    k < |ct.queue| && ct.queue[k] <= usable && forall i :: 0 <= i < k ==> !(ct.queue[i] <= usable)
  }

  /**
   Timer zero. The old game goes on, with its players and one more session,
   exactly when extension is on, the court is open, every player's pass is
   usable and no waiting group is; otherwise it is over, replaced by the first
   usable group exactly when the court is open and there is one. Nobody with an
   unusable pass is left on court.
   */
  lemma ExpireExactlyWhen(club: Club, c: int, r: Reads)
    ensures var o := Step(club, Expire(c), r);
            o.Committed? <==>
              c in club.courts && club.courts[c].session.Some? && club.courts[c].session.value.endsAt <= r.now
    ensures Step(club, Expire(c), r).Committed? ==>
              var o, ct := Step(club, Expire(c), r), club.courts[c];
              var ct', next := o.value.courts[c], Open(ct, r.now) && SomeoneCanPlay(ct, r.usable);
              && (o.note.Extended? <==> !next && r.autoExtend && Open(ct, r.now) && Players(ct) <= r.usable)
              && (o.note.Promoted? <==> next)
              && (o.note.Cleared? <==> ct'.session.None?)
              && (o.note.Extended? ==>
                    ct'.session == Some(Session(Players(ct), ct.session.value.startedAt,
                                                ct.session.value.endsAt + r.minutes * 60_000,
                                                ct.session.value.extensions + 1)))
              && (o.note.Promoted? ==>
                    PlaysNext(ct, r.usable, o.note.dropped)
                    && ct'.session == Some(Session(ct.queue[o.note.dropped], r.now, r.now + r.minutes * 60_000, 0)))
              && Players(ct') <= r.usable
  {
    if c in club.courts {
      var k := FirstUsable(club.courts[c].queue, r.usable);
    }
  }

  // ---- how far a queue grows ------------------------------------------------

  lemma ActGrowsQueue(ct: Court, req: Request, errors: seq<CredError>, r: Reads)
    requires !req.Resize? && AllowedSize(req) && ActOn(ct, req, errors, r).Committed?
    requires |ActOn(ct, req, errors, r).value.queue| > |ct.queue|
    ensures req.Enqueue? && |Players(ct)| >= 4 && |ct.queue| < r.depth
    ensures |ActOn(ct, req, errors, r).value.queue| == |ct.queue| + 1
  {
  }

  /** A call that lengthens a court's queue does so by one group, behind four players and within the depth it read. */
  lemma QueueGrowsBehindFour(club: Club, call: Call, c: int)
    requires WellFormed(club) && c in club.courts && c in After(club, call).courts
    requires |After(club, call).courts[c].queue| > |club.courts[c].queue|
    ensures |Players(club.courts[c])| == 4
    ensures |After(club, call).courts[c].queue| == |club.courts[c].queue| + 1 <= call.read.depth
  {
    QueueFairness.CourtAfter(club, call, c);
    assert Tidy(club.courts[c]);
    ActGrowsQueue(club.courts[c], call.req, Errors(club, call.req), call.read);
    hide Tidy, WellFormed, After, ActOn, Errors;
  }

  /** Over any run from a new club no queue ever holds more groups than the club's depth. */
  lemma {:induction false} QueueWithinDepth(count: nat, calls: seq<Call>, depth: nat, c: int)
    requires ProperCalls(calls) && forall i :: 0 <= i < |calls| ==> calls[i].read.depth == depth
    requires c in Run(NewClub(count), calls).courts
    ensures |Run(NewClub(count), calls).courts[c].queue| <= depth
  {
    if calls != [] {
      var init, last := calls[..|calls| - 1], calls[|calls| - 1];
      var before := Run(NewClub(count), init);
      NewRunIsWellFormed(count, init);
      if c in before.courts {
        QueueWithinDepth(count, init, depth, c);
        if |After(before, last).courts[c].queue| > |before.courts[c].queue| {
          QueueGrowsBehindFour(before, last, c);
        }
      } else {
        NewCourtIsFresh(before, last, c);
      }
    }
  }

  lemma NewRunIsWellFormed(count: nat, calls: seq<Call>)
    requires ProperCalls(calls)
    ensures WellFormed(Run(NewClub(count), calls))
  {
    assert forall c, x :: c in NewClub(count).courts ==> !OnRoster(NewClub(count).courts[c], x);
    RunKeepsWellFormed(NewClub(count), calls);
  }

  lemma NewCourtIsFresh(club: Club, call: Call, c: int)
    requires c !in club.courts && c in After(club, call).courts
    ensures After(club, call).courts[c] == FRESH_COURT
  {
  }

  lemma ActExtends(ct: Court, req: Request, errors: seq<CredError>, r: Reads)
    requires !req.Resize? && AllowedSize(req) && ActOn(ct, req, errors, r).Committed? && !r.autoExtend
    requires ct.session.Some? ==> ct.session.value.extensions == 0
    requires ActOn(ct, req, errors, r).value.session.Some?
    ensures ActOn(ct, req, errors, r).value.session.value.extensions == 0
  {
  }

  /** With extension always off, no session of any run is ever extended. */
  lemma {:induction false} NeverExtendedWhenOff(count: nat, calls: seq<Call>, c: int)
    requires ProperCalls(calls) && forall i :: 0 <= i < |calls| ==> !calls[i].read.autoExtend
    requires c in Run(NewClub(count), calls).courts && Run(NewClub(count), calls).courts[c].session.Some?
    ensures Run(NewClub(count), calls).courts[c].session.value.extensions == 0
  {
    if calls != [] {
      var init, last := calls[..|calls| - 1], calls[|calls| - 1];
      var before := Run(NewClub(count), init);
      NewRunIsWellFormed(count, init);
      if c in before.courts {
        if before.courts[c].session.Some? {
          NeverExtendedWhenOff(count, init, c);
        }
        QueueFairness.CourtAfter(before, last, c);
        if After(before, last).courts[c] != before.courts[c] {
          ActExtends(before.courts[c], last.req, Errors(before, last.req), last.read);
        }
      } else {
        NewCourtIsFresh(before, last, c);
      }
    }
  }

  // ---- closures and resizing ------------------------------------------------

  /** A closure is stored unless its window is empty or starts over five minutes ago; started, it releases the queue. */
  lemma CloseExactlyWhen(club: Club, c: int, from: int, until: int, r: Reads)
    ensures var o := Step(club, Close(c, from, until), r);
            && (o.Committed? <==> c in club.courts && from < until && r.now - from <= 300_000)
            && (o.Committed? ==>
                  && o.value.courts[c].session == club.courts[c].session
                  && o.value.courts[c].queue == (if from <= r.now then [] else club.courts[c].queue)
                  && o.note == Closed(|club.courts[c].queue| - |o.value.courts[c].queue|))
  {
  }

  /** The call neither closes nor reopens court c. */
  predicate LeavesClosure(call: Call, c: int) {
    !((call.req.Close? || call.req.Reopen?) && call.req.court == c)
  }

  /** Court c exists after every prefix of the calls. */
  ghost predicate Stands(club: Club, calls: seq<Call>, c: int) {
    c in Run(club, calls).courts && (calls != [] ==> Stands(club, calls[..|calls| - 1], c))
  }

  lemma ActKeepsWindow(ct: Court, req: Request, errors: seq<CredError>, r: Reads)
    requires !req.Resize? && !req.Close? && !req.Reopen? && AllowedSize(req) && ActOn(ct, req, errors, r).Committed?
    ensures ActOn(ct, req, errors, r).value.closed == ct.closed && ActOn(ct, req, errors, r).value.window == ct.window
  {
    hide FirstUsable, GroupOf, MissingErrors, Everyone, Passes;
  }

  lemma CallKeepsWindow(club: Club, call: Call, c: int)
    requires LeavesClosure(call, c) && c in club.courts && c in After(club, call).courts
    ensures After(club, call).courts[c].closed == club.courts[c].closed
    ensures After(club, call).courts[c].window == club.courts[c].window
  {
    if !call.req.Resize? && call.req.court == c && AllowedSize(call.req)
       && ActOn(club.courts[c], call.req, Errors(club, call.req), call.read).Committed? {
      ActKeepsWindow(club.courts[c], call.req, Errors(club, call.req), call.read);
    }
    hide ActOn, Errors;
  }

  lemma {:induction false} RunKeepsWindow(club: Club, calls: seq<Call>, c: int)
    requires Stands(club, calls, c) && forall i :: 0 <= i < |calls| ==> LeavesClosure(calls[i], c)
    ensures c in club.courts && c in Run(club, calls).courts
    ensures Run(club, calls).courts[c].closed == club.courts[c].closed
    ensures Run(club, calls).courts[c].window == club.courts[c].window
  {
    if calls != [] {
      var init, last := calls[..|calls| - 1], calls[|calls| - 1];
      RunKeepsWindow(club, init, c);
      CallKeepsWindow(Run(club, init), last, c);
    }
  }

  lemma SameOpening(ct: Court, ct': Court, now: int)
    requires ct'.closed == ct.closed && ct'.window == ct.window
    ensures Open(ct', now) == Open(ct, now)
  {
  }

  lemma ToldClosed(club: Club, req: Request, r: Reads)
    requires Places(req) && AllowedSize(req) && req.court in club.courts
    ensures Step(club, req, r) == Refused(CourtClosed) <==> !Open(club.courts[req.court], r.now)
  {
    hide Errors, Passes, FreshSession, Players;
  }

  /** Until the court is closed or reopened again, its closure as first stored decides who is told it is closed. */
  lemma WindowDecides(start: Club, later: seq<Call>, c: int, req: Request, read: Reads)
    requires Stands(start, later, c) && forall i :: 0 <= i < |later| ==> LeavesClosure(later[i], c)
    requires Places(req) && AllowedSize(req) && req.court == c
    ensures c in start.courts
    ensures Step(Run(start, later), req, read) == Refused(CourtClosed) <==> !Open(start.courts[c], read.now)
  {
    RunKeepsWindow(start, later, c);
    hide *;
    ToldClosed(Run(start, later), req, read);
    SameOpening(start.courts[c], Run(start, later).courts[c], read.now);
    assert req.court == c;
  }

  /**
   How long a closure lasts: whatever happens after it is stored, short of
   another closure, a reopening or the court's removal, players are told the
   court is closed exactly from its start until just before its end.
   */
  lemma ClosureLastsExactly(club: Club, c: int, from: int, until: int, r: Reads, later: seq<Call>,
                            req: Request, read: Reads)
    requires Step(club, Close(c, from, until), r).Committed?
    requires Stands(Step(club, Close(c, from, until), r).value, later, c)
    requires forall i :: 0 <= i < |later| ==> LeavesClosure(later[i], c)
    requires Places(req) && AllowedSize(req) && req.court == c
    ensures Step(Run(Step(club, Close(c, from, until), r).value, later), req, read) == Refused(CourtClosed)
            <==> from <= read.now < until
  {
    hide Run, Stands, LeavesClosure, Errors;
    WindowDecides(Step(club, Close(c, from, until), r).value, later, c, req, read);
  }

  /** A reopened court turns nobody away as closed until it is closed again. */
  lemma ReopenLasts(club: Club, c: int, r: Reads, later: seq<Call>, req: Request, read: Reads)
    requires c in club.courts
    requires Stands(After(club, Call(Reopen(c), r)), later, c)
    requires forall i :: 0 <= i < |later| ==> LeavesClosure(later[i], c)
    requires Places(req) && AllowedSize(req) && req.court == c
    ensures Step(Run(After(club, Call(Reopen(c), r)), later), req, read) != Refused(CourtClosed)
    ensures After(club, Call(Reopen(c), r)).courts[c].session == club.courts[c].session
    ensures After(club, Call(Reopen(c), r)).courts[c].queue == club.courts[c].queue
  {
    hide Run, Stands, LeavesClosure, Errors;
    WindowDecides(After(club, Call(Reopen(c), r)), later, c, req, read);
  }

  /** Resizing is refused exactly while a removed court has a game; courts that stay are untouched, new ones open and empty. */
  lemma ResizeExactlyWhen(club: Club, n: nat, r: Reads)
    requires WellFormed(club)
    ensures var o := Step(club, Resize(n), r);
            && (o.Committed? <==> forall c :: n < c <= club.count ==> club.courts[c].session.None?)
            && (o.Committed? ==>
                  && (forall c :: c in o.value.courts <==> 1 <= c <= n)
                  && (forall c :: 1 <= c <= n && c <= club.count ==> o.value.courts[c] == club.courts[c])
                  && (forall c :: club.count < c <= n ==>
                        o.value.courts[c].session.None? && o.value.courts[c].queue == []
                        && forall now :: Open(o.value.courts[c], now)))
  {
  }
}
