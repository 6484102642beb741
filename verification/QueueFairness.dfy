/**
 The waiting line: what promotion takes, what every step does to a waiting
 group, and the board's ETA as an upper bound on the wait.
 */
module QueueFairness {
  import opened Wrappers
  import opened CourtModel
  import opened CourtInvariant

  // ---- promotion ------------------------------------------------------------

  /** Drop from the front while the front group holds an unusable pass. */
  function DropUnusable(queue: seq<set<PassId>>, usable: set<PassId>): seq<set<PassId>> {
    if queue != [] && !(queue[0] <= usable) then DropUnusable(queue[1..], usable) else queue
  }

  lemma {:induction false} FirstUsableDrops(queue: seq<set<PassId>>, usable: set<PassId>)
    ensures DropUnusable(queue, usable) == queue[FirstUsable(queue, usable)..]
  {
    if queue != [] && !(queue[0] <= usable) {
      FirstUsableDrops(queue[1..], usable);
      assert queue[1..][FirstUsable(queue[1..], usable)..] == queue[FirstUsable(queue, usable)..];
    }
  }

  /**
   Promotion is drop-while-unusable, then take the head if the court is open:
   the first fully usable group is promoted exactly when the court is open and
   some group is usable, and the rest keep their order.
   */
  lemma PromotionTakesFirstUsable(ct: Court, r: Reads)
    ensures var p, rest := PromoteNext(ct, r), DropUnusable(ct.queue, r.usable);
            && p.dropped == |ct.queue| - |rest|
            && (p.moved <==> !ClosedAt(ct, r.now) && exists i :: 0 <= i < |ct.queue| && ct.queue[i] <= r.usable)
            && (p.moved ==> [Players(p.court)] + p.court.queue == rest)
            && (p.moved ==> p.court.session.value.endsAt == r.now + r.minutes * MINUTE)
            && (!p.moved ==> p.court.queue == rest && p.court.session == ct.session)
  {
    FirstUsableDrops(ct.queue, r.usable);
  }

  /** A session that ends on an open court leaves it idle only with an empty queue. */
  lemma IdleOnlyWithEmptyQueue(club: Club, req: Request, r: Reads)
    requires req.Expire? || req.LeaveCourt?
    requires Step(club, req, r).Committed?
    requires !ClosedAt(club.courts[req.court], r.now)
    ensures var ct := Step(club, req, r).value.courts[req.court];
            ct.session.None? ==>
              && ct.queue == []
              && forall i :: 0 <= i < |club.courts[req.court].queue| ==> !(club.courts[req.court].queue[i] <= r.usable)
  {
  }

  // ---- one step and one waiting pass ----------------------------------------

  predicate EndsSession(note: Note) {
    match note
    case Promoted(_) => true
    case Cleared => true
    case LeftCourt(ended, _) => ended
    case _ => false
  }

  lemma PromotionIsSuffix(ct: Court, r: Reads)
    ensures var p := PromoteNext(ct, r);
            var k := p.dropped + if p.moved then 1 else 0;
            k <= |ct.queue| && p.court.queue == ct.queue[k..]
  {
  }

  lemma SuffixMovesLine(ct: Court, ct': Court, k: nat, x: PassId)
    requires Tidy(ct) && Tidy(ct') && InLine(ct', x) && k <= |ct.queue| && ct'.queue == ct.queue[k..]
    ensures GroupOf(ct'.queue, x) == GroupOf(ct.queue, x) - k
  {
  }

  /** After promotion, whoever still waits has moved past everyone dropped or promoted. */
  lemma PromoteMovesLine(ct: Court, r: Reads, x: PassId)
    requires Tidy(ct) && InLine(ct, x) && InLine(PromoteNext(ct, r).court, x)
    ensures var p := PromoteNext(ct, r);
            GroupOf(p.court.queue, x) == GroupOf(ct.queue, x) - p.dropped - if p.moved then 1 else 0
  {
    var p := PromoteNext(ct, r);
    PromoteKeepsTidy(ct, r);
    PromotionIsSuffix(ct, r);
    hide *;
    SuffixMovesLine(ct, p.court, p.dropped + if p.moved then 1 else 0, x);
  }

  lemma GroupGoneMovesLine(ct: Court, g: nat, x: PassId)
    requires Tidy(ct) && g < |ct.queue| && InLine(ct.(queue := ct.queue[..g] + ct.queue[g + 1..]), x)
    ensures GroupOf(ct.queue[..g] + ct.queue[g + 1..], x) <= GroupOf(ct.queue, x)
  {
  }

  lemma PairGoneMovesLine(ct: Court, g: nat, rest: set<PassId>, x: PassId)
    requires Tidy(ct) && g < |ct.queue| && rest <= ct.queue[g] && Tidy(ct.(queue := ct.queue[g := rest]))
    requires InLine(ct.(queue := ct.queue[g := rest]), x)
    ensures GroupOf(ct.queue[g := rest], x) <= GroupOf(ct.queue, x)
  {
  }

  lemma LeaveQueueMovesLine(ct: Court, c: int, party: Party, x: PassId)
    requires Tidy(ct) && (party.Size() == 2 || party.Size() == 4) && party.Distinct()
    requires LeaveQueueOn(ct, c, party).Committed?
    requires InLine(LeaveQueueOn(ct, c, party).value, x)
    ensures GroupOf(LeaveQueueOn(ct, c, party).value.queue, x) <= GroupOf(ct.queue, x)
  {
    var g := GroupOf(ct.queue, party.holders[0].pass);
    LeaveQueueKeepsTidy(ct, c, party);
    hide Tidy, InLine;
    if |ct.queue[g]| == |party.holders| {
      GroupGoneMovesLine(ct, g, x);
    } else {
      PairGoneMovesLine(ct, g, ct.queue[g] - Passes(party.holders), x);
    }
  }

  lemma SameGroupOf(ct: Court, ct': Court, x: PassId)
    requires Tidy(ct) && ct.queue <= ct'.queue
    requires InLine(ct, x)
    ensures GroupOf(ct'.queue, x) == GroupOf(ct.queue, x)
  {
  }

  /**
   No action raises a waiting pass's position; ending a session on an open
   court strictly lowers it (or the pass no longer waits).
   */
  lemma ActMovesLine(ct: Court, req: Request, errors: seq<CredError>, r: Reads, x: PassId)
    requires Tidy(ct) && DistinctParty(req) && !req.Resize? && AllowedSize(req)
    requires ActOn(ct, req, errors, r).Committed?
    requires InLine(ct, x) && InLine(ActOn(ct, req, errors, r).value, x)
    ensures GroupOf(ActOn(ct, req, errors, r).value.queue, x) <= GroupOf(ct.queue, x)
    ensures EndsSession(ActOn(ct, req, errors, r).note) && !ClosedAt(ct, r.now) ==>
              GroupOf(ActOn(ct, req, errors, r).value.queue, x) < GroupOf(ct.queue, x)
  {
    var ct' := ActOn(ct, req, errors, r).value;
    if EndsSession(ActOn(ct, req, errors, r).note) || req.Expire? {
      EndingActPromotes(ct, req, errors, r);
      LineAfterPromotion(ct, ct', r, x);
    } else if req.LeaveQueue? {
      LeaveQueueMovesLine(ct, req.court, req.party, x);
    } else {
      QuietActKeepsLine(ct, req, errors, r);
      SameGroupOf(ct, ct', x);
    }
  }

  /** Only the promotion step touches the queue and the session of a court whose session ends or is due. */
  lemma EndingActPromotes(ct: Court, req: Request, errors: seq<CredError>, r: Reads)
    requires !req.Resize? && AllowedSize(req) && ActOn(ct, req, errors, r).Committed?
    requires EndsSession(ActOn(ct, req, errors, r).note) || req.Expire?
    ensures var o, p := ActOn(ct, req, errors, r), PromoteNext(ct, r);
            && o.value.queue == p.court.queue
            && (EndsSession(o.note) ==> o.value.session == if p.moved then p.court.session else None)
  {
    match req
    case Expire(_) =>
    case LeaveCourt(_, _) =>
    case _ =>
  }

  /** Every other action leaves the queue, appends to it or empties it. */
  lemma QuietActKeepsLine(ct: Court, req: Request, errors: seq<CredError>, r: Reads)
    requires !req.Resize? && AllowedSize(req) && ActOn(ct, req, errors, r).Committed?
    requires !EndsSession(ActOn(ct, req, errors, r).note) && !req.Expire? && !req.LeaveQueue?
    ensures ct.queue <= ActOn(ct, req, errors, r).value.queue || ActOn(ct, req, errors, r).value.queue == []
  {
  }

  lemma LineAfterPromotion(ct: Court, ct': Court, r: Reads, x: PassId)
    requires Tidy(ct) && InLine(ct, x) && InLine(ct', x)
    requires ct'.queue == PromoteNext(ct, r).court.queue
    ensures GroupOf(ct'.queue, x) <= GroupOf(ct.queue, x)
    ensures !ClosedAt(ct, r.now) ==> PromoteNext(ct, r).moved && GroupOf(ct'.queue, x) < GroupOf(ct.queue, x)
  {
  }

  /** What becomes of waiting group i when a session ends on its open court. */
  ghost predicate Served(ct: Court, ct': Court, r: Reads, i: nat)
    requires i < |ct.queue|
  {
    || (!(ct.queue[i] <= r.usable) && forall x :: x in ct.queue[i] ==> !OnRoster(ct', x))
    || (Players(ct') == ct.queue[i] && forall j :: 0 <= j < i ==> !(ct.queue[j] <= r.usable))
    || (exists j :: 0 <= j < i && j < |ct'.queue| && ct'.queue[j] == ct.queue[i])
  }

  lemma ServedAfterPromotion(ct: Court, ct': Court, r: Reads, i: nat)
    requires Tidy(ct) && !ClosedAt(ct, r.now) && i < |ct.queue|
    requires ct'.queue == PromoteNext(ct, r).court.queue
    requires ct'.session == if PromoteNext(ct, r).moved then PromoteNext(ct, r).court.session else None
    ensures Served(ct, ct', r, i)
  {
  }

  /**
   When a session ends on an open court, every waiting group is dropped for an
   unusable pass, promoted with only unusable groups ahead of it, or moves to a
   strictly smaller position.
   */
  lemma EndedSessionServesLine(club: Club, req: Request, r: Reads, i: nat)
    requires WellFormed(club) && DistinctParty(req)
    requires Step(club, req, r).Committed? && EndsSession(Step(club, req, r).note)
    requires !ClosedAt(club.courts[req.court], r.now) && i < |club.courts[req.court].queue|
    ensures Served(club.courts[req.court], Step(club, req, r).value.courts[req.court], r, i)
  {
    EndingActPromotes(club.courts[req.court], req, Errors(club, req), r);
    ServedAfterPromotion(club.courts[req.court], Step(club, req, r).value.courts[req.court], r, i);
  }

  // ---- runs of one court ----------------------------------------------------

  /** The waiting pass's line, over a whole run: it waits at court c after every prefix. */
  ghost predicate WaitsThroughout(club: Club, calls: seq<Call>, c: int, x: PassId) {
    && c in Run(club, calls).courts
    && InLine(Run(club, calls).courts[c], x)
    && (calls != [] ==> WaitsThroughout(club, calls[..|calls| - 1], c, x))
  }

  /** The call ends a session on court c while the court is open. */
  ghost predicate EndsAt(club: Club, call: Call, c: int) {
    && !call.req.Resize? && call.req.court == c && c in club.courts
    && Step(club, call.req, call.read).Committed?
    && EndsSession(Step(club, call.req, call.read).note)
    && !ClosedAt(club.courts[c], call.read.now)
  }

  ghost function SessionEnds(club: Club, calls: seq<Call>, c: int): nat {
    if calls == [] then 0
    else
      var init := calls[..|calls| - 1];
      SessionEnds(club, init, c) + if EndsAt(Run(club, init), calls[|calls| - 1], c) then 1 else 0
  }

  ghost function Ahead(club: Club, c: int, x: PassId): nat
    requires c in club.courts
  {
    GroupOf(club.courts[c].queue, x)
  }

  /** How one call changes a court that exists before and after it. */
  lemma CourtAfter(club: Club, call: Call, c: int)
    requires WellFormed(club) && c in club.courts && c in After(club, call).courts
    ensures var ct, ct' := club.courts[c], After(club, call).courts[c];
            || ct' == ct
            || (&& !call.req.Resize? && call.req.court == c && AllowedSize(call.req)
                && ActOn(ct, call.req, Errors(club, call.req), call.read).Committed?
                && ct' == ActOn(ct, call.req, Errors(club, call.req), call.read).value)
  {
  }

  lemma CallMovesLine(club: Club, call: Call, c: int, x: PassId)
    requires WellFormed(club) && DistinctParty(call.req)
    requires c in club.courts && c in After(club, call).courts
    requires InLine(club.courts[c], x) && InLine(After(club, call).courts[c], x)
    ensures Ahead(After(club, call), c, x) + (if EndsAt(club, call, c) then 1 else 0) <= Ahead(club, c, x)
  {
    CourtAfter(club, call, c);
    var ct := club.courts[c];
    if !call.req.Resize? && call.req.court == c && AllowedSize(call.req) {
      var errors := Errors(club, call.req);
      if ActOn(ct, call.req, errors, call.read).Committed? {
        ActMovesLine(ct, call.req, errors, call.read, x);
      }
    }
  }

  /**
   Bounded waiting without overtaking: while a pass keeps waiting, its position
   plus the sessions that ended meanwhile on its open court never exceed its
   starting position.
   */
  lemma {:induction false} BoundedWaiting(club: Club, calls: seq<Call>, c: int, x: PassId)
    requires WellFormed(club) && ProperCalls(calls) && WaitsThroughout(club, calls, c, x)
    requires c in club.courts
    ensures Ahead(Run(club, calls), c, x) + SessionEnds(club, calls, c) <= Ahead(club, c, x)
  {
    if calls != [] {
      var init, last := calls[..|calls| - 1], calls[|calls| - 1];
      BoundedWaiting(club, init, c, x);
      RunKeepsWellFormed(club, init);
      CallMovesLine(Run(club, init), last, c, x);
    }
  }

  // ---- the board's ETA ------------------------------------------------------

  function SecondsLeft(ct: Court, now: int): nat {
    if ct.session.Some? && ct.session.value.endsAt > now then (ct.session.value.endsAt - now) / 1000 else 0
  }

  /** The figure on the board for the group at position p >= 1, in whole minutes. */
  function EtaMinutes(ct: Court, p: nat, minutes: nat, now: int): nat {
    (SecondsLeft(ct, now) + (if p == 0 then 0 else p - 1) * minutes * 60 + 30) / 60
  }

  /** The wait promised to position p: the exact seconds shown, full slots, and a late expiry per position. */
  function ExactBound(ct: Court, p: nat, minutes: nat, now: int, late: nat): int {
    now + SecondsLeft(ct, now) * 1000 + 999 + (p - 1) * (minutes * MINUTE) + p * late
  }

  /** The same from the rounded minutes on the board. */
  function ShownBound(ct: Court, p: nat, minutes: nat, now: int, late: nat): int {
    now + EtaMinutes(ct, p, minutes, now) * MINUTE + 30_000 + p * late
  }

  /** Longest wait beyond the running session: g more full slots and g + 1 late expiries. */
  function Wait(g: nat, slot: nat, late: nat): nat {
    if g == 0 then late else slot + late + Wait(g - 1, slot, late)
  }

  lemma {:induction false} WaitShorter(g': nat, g: nat, slot: nat, late: nat)
    ensures g' < g ==> slot + late + Wait(g', slot, late) <= Wait(g, slot, late)
    ensures g' <= g ==> late <= Wait(g', slot, late) <= Wait(g, slot, late)
  {
    if g' < g {
      WaitShorter(g', g - 1, slot, late);
    } else if 0 < g' == g {
      WaitShorter(g' - 1, g - 1, slot, late);
    }
  }

  lemma {:induction false} WaitInSlots(g: nat, slot: nat, late: nat)
    ensures Wait(g, slot, late) == g * slot + (g + 1) * late
  {
    if g != 0 {
      WaitInSlots(g - 1, slot, late);
    }
  }

  /** Latest instant at which the pass can still be waiting. */
  ghost function LatestStart(ct: Court, x: PassId, slot: nat, late: nat): int
    requires ct.session.Some?
  {
    ct.session.value.endsAt + Wait(GroupOf(ct.queue, x), slot, late)
  }

  /** The court is open, settings are fixed, the waiting group is usable and the engine is at most `late` late. */
  ghost predicate Steady(club: Club, call: Call, c: int, x: PassId, slot: nat, late: nat) {
    && c in club.courts && InLine(club.courts[c], x)
    && call.read.minutes * MINUTE == slot
    && !ClosedAt(club.courts[c], call.read.now)
    && club.courts[c].queue[GroupOf(club.courts[c].queue, x)] <= call.read.usable
    && (club.courts[c].session.Some? ==> call.read.now <= club.courts[c].session.value.endsAt + late)
  }

  lemma LatestStartAfterPromotion(ct: Court, ct': Court, r: Reads, x: PassId, slot: nat, late: nat)
    requires Tidy(ct) && InLine(ct, x) && ct.session.Some? && !ClosedAt(ct, r.now)
    requires ct.queue[GroupOf(ct.queue, x)] <= r.usable
    requires r.now <= ct.session.value.endsAt + late && r.minutes * MINUTE == slot
    requires PromoteNext(ct, r).moved && ct' == PromoteNext(ct, r).court && InLine(ct', x)
    ensures ct'.session.Some? && LatestStart(ct', x, slot, late) <= LatestStart(ct, x, slot, late)
  {
    PromoteMovesLine(ct, r, x);
    WaitShorter(GroupOf(ct'.queue, x), GroupOf(ct.queue, x), slot, late);
  }

  lemma LatestStartShrinks(ct: Court, req: Request, errors: seq<CredError>, r: Reads, x: PassId, slot: nat, late: nat)
    requires Tidy(ct) && DistinctParty(req) && !req.Resize? && AllowedSize(req)
    requires ct.session.Some? && InLine(ct, x) && !ClosedAt(ct, r.now)
    requires ct.queue[GroupOf(ct.queue, x)] <= r.usable
    requires r.now <= ct.session.value.endsAt + late && r.minutes * MINUTE == slot
    requires ActOn(ct, req, errors, r).Committed? && InLine(ActOn(ct, req, errors, r).value, x)
    ensures ActOn(ct, req, errors, r).value.session.Some?
    ensures LatestStart(ActOn(ct, req, errors, r).value, x, slot, late) <= LatestStart(ct, x, slot, late)
  {
    var ct' := ActOn(ct, req, errors, r).value;
    ActMovesLine(ct, req, errors, r, x);
    hide Tidy, InLine, GroupOf, Wait;
    if EndsSession(ActOn(ct, req, errors, r).note) {
      LatestStartAfterPromotion(ct, ct', r, x, slot, late);
    } else {
      assert req.Expire? ==> PromoteNext(ct, r).moved;
      WaitShorter(GroupOf(ct'.queue, x), GroupOf(ct.queue, x), slot, late);
    }
  }

  /** A steady run: every call meets a steady court, and afterwards the pass still waits or is on court. */
  ghost predicate SteadyRun(club: Club, calls: seq<Call>, c: int, x: PassId, slot: nat, late: nat) {
    calls == [] ||
    var init := calls[..|calls| - 1];
    && SteadyRun(club, init, c, x, slot, late)
    && Steady(Run(club, init), calls[|calls| - 1], c, x, slot, late)
    && c in Run(club, calls).courts && OnRoster(Run(club, calls).courts[c], x)
  }

  lemma {:induction false} LatestStartOverRun(club: Club, calls: seq<Call>, c: int, x: PassId, slot: nat, late: nat)
    requires WellFormed(club) && ProperCalls(calls) && SteadyRun(club, calls, c, x, slot, late)
    requires c in club.courts && InLine(club.courts[c], x) && club.courts[c].session.Some?
    requires c in Run(club, calls).courts && InLine(Run(club, calls).courts[c], x)
    ensures Run(club, calls).courts[c].session.Some?
    ensures LatestStart(Run(club, calls).courts[c], x, slot, late) <= LatestStart(club.courts[c], x, slot, late)
  {
    if calls != [] {
      var init, last := calls[..|calls| - 1], calls[|calls| - 1];
      var before := Run(club, init);
      LatestStartOverRun(club, init, c, x, slot, late);
      RunKeepsWellFormed(club, init);
      CourtAfter(before, last, c);
      if Run(club, calls).courts[c] != before.courts[c] {
        LatestStartShrinks(before.courts[c], last.req, Errors(before, last.req), last.read, x, slot, late);
      }
    }
  }

  /** Someone still waiting at `instant` is within the exact bound, hence within the rounded one. */
  lemma EtaRounding(ct: Court, p: nat, minutes: nat, now: int, late: nat, instant: int)
    requires p >= 1 && ct.session.Some?
    requires instant <= ct.session.value.endsAt + (p - 1) * (minutes * MINUTE) + p * late
    ensures instant <= ExactBound(ct, p, minutes, now, late)
    ensures instant < ShownBound(ct, p, minutes, now, late)
  {
  }

  /** Whoever still waits at `instant` is within the latest start reckoned at the beginning. */
  lemma StillWaitingIsEarly(club: Club, calls: seq<Call>, c: int, x: PassId, slot: nat, late: nat, instant: int)
    requires WellFormed(club) && ProperCalls(calls) && SteadyRun(club, calls, c, x, slot, late)
    requires c in club.courts && InLine(club.courts[c], x) && club.courts[c].session.Some?
    requires c in Run(club, calls).courts && InLine(Run(club, calls).courts[c], x)
    requires Run(club, calls).courts[c].session.Some? ==>
               instant <= Run(club, calls).courts[c].session.value.endsAt + late
    ensures instant <= LatestStart(club.courts[c], x, slot, late)
  {
    LatestStartOverRun(club, calls, c, x, slot, late);
    WaitShorter(GroupOf(Run(club, calls).courts[c].queue, x), GroupOf(Run(club, calls).courts[c].queue, x), slot, late);
    hide SteadyRun, Run, InLine, GroupOf, WellFormed, Wait, ProperCalls;
  }

  lemma LatestStartRounds(ct: Court, x: PassId, minutes: nat, now: int, late: nat, instant: int)
    requires ct.session.Some? && instant <= LatestStart(ct, x, minutes * MINUTE, late)
    ensures var p := GroupOf(ct.queue, x) + 1;
            instant <= ExactBound(ct, p, minutes, now, late) && instant < ShownBound(ct, p, minutes, now, late)
  {
    WaitInSlots(GroupOf(ct.queue, x), minutes * MINUTE, late);
    hide ExactBound, ShownBound, Wait, GroupOf;
    EtaRounding(ct, GroupOf(ct.queue, x) + 1, minutes, now, late, instant);
  }

  /** Over a steady run the pass is never lost. */
  lemma StaysOnRoster(club: Club, calls: seq<Call>, c: int, x: PassId, slot: nat, late: nat)
    requires SteadyRun(club, calls, c, x, slot, late)
    requires c in club.courts && InLine(club.courts[c], x) && c in Run(club, calls).courts
    ensures OnRoster(Run(club, calls).courts[c], x)
  {
    assert calls == [] ==> Run(club, calls) == club;
  }

  /**
   The board's ETA is an upper bound: a group shown at position p is on court
   no later than now + seconds_left + (p - 1) * session_minutes + p * late (the
   board drops the part of a second), so within 30 seconds and p * late of the
   rounded minutes it shows.
   */
  lemma EtaIsUpperBound(club: Club, calls: seq<Call>, c: int, x: PassId, minutes: nat, late: nat, now: int,
                        instant: int)
    requires WellFormed(club) && ProperCalls(calls) && SteadyRun(club, calls, c, x, minutes * MINUTE, late)
    requires c in club.courts && InLine(club.courts[c], x) && club.courts[c].session.Some?
    requires c in Run(club, calls).courts
    requires Run(club, calls).courts[c].session.Some? ==>
               instant <= Run(club, calls).courts[c].session.value.endsAt + late
    ensures var ct, p := club.courts[c], GroupOf(club.courts[c].queue, x) + 1;
            && (instant > ExactBound(ct, p, minutes, now, late) ==> x in Players(Run(club, calls).courts[c]))
            && (instant >= ShownBound(ct, p, minutes, now, late) ==> x in Players(Run(club, calls).courts[c]))
  {
    hide ExactBound, ShownBound, SteadyRun, Run, InLine, GroupOf, WellFormed, LatestStart, Players, ProperCalls;
    StaysOnRoster(club, calls, c, x, minutes * MINUTE, late);
    if InLine(Run(club, calls).courts[c], x) {
      StillWaitingIsEarly(club, calls, c, x, minutes * MINUTE, late, instant);
      LatestStartRounds(club.courts[c], x, minutes, now, late, instant);
    }
  }
}
