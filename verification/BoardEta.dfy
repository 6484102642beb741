/**
 The board's ETA is exact but for rounding: while sessions end on time, nobody
 leaves early and the groups ahead are usable, the group at position p goes on
 court p - 1 full sessions after the running one ends, no earlier and no later.
 */
module BoardEta {
  import opened Wrappers
  import opened CourtModel
  import opened CourtInvariant
  import opened QueueFairness
  import opened RosterConservation

  /** When the group at position p is due: p - 1 full sessions after the running one ends. */
  function DueAt(s: Session, p: nat, minutes: nat): int {
    s.endsAt + (p - 1) * (minutes * 60_000)
  }

  /** The figure shown is the seconds left and p - 1 full sessions, rounded to the nearest minute, half up. */
  lemma EtaIsNearestMinute(ct: Court, p: nat, minutes: nat, now: int)
    requires p >= 1 && ct.session.Some?
    ensures var left := if ct.session.value.endsAt > now then (ct.session.value.endsAt - now) / 1000 else 0;
            -30 < 60 * EtaMinutes(ct, p, minutes, now) - (left + (p - 1) * minutes * 60) <= 30
  {
  }

  /** Before timer zero the figure is within 30 seconds, and the part of a second dropped, of when the group is due. */
  lemma EtaIsNearDue(ct: Court, p: nat, minutes: nat, now: int)
    requires p >= 1 && ct.session.Some? && now <= ct.session.value.endsAt
    ensures -31_000 < now + EtaMinutes(ct, p, minutes, now) * 60_000 - DueAt(ct.session.value, p, minutes) <= 30_000
  {
    EtaIsNearestMinute(ct, p, minutes, now);
    var left := (ct.session.value.endsAt - now) / 1000;
    assert (p - 1) * minutes * 60 * 1000 == (p - 1) * (minutes * 60_000);
    assert ct.session.value.endsAt - now - 999 <= left * 1000 <= ct.session.value.endsAt - now;
    hide EtaMinutes;
  }

  // ---- an undisturbed call --------------------------------------------------

  /** What a committed action on the court may be: sessions end only by timer zero, on the dot, and no group leaves. */
  ghost predicate Undisturbed(ct: Court, req: Request, note: Note, r: Reads) {
    && (EndsSession(note) ==> req.Expire? && ct.session.Some? && r.now == ct.session.value.endsAt)
    && note != LeftQueue(true)
  }

  /** Pass x waits on an open court, and it and everyone ahead may play. */
  ghost predicate OnTime(club: Club, call: Call, c: int, x: PassId, minutes: nat) {
    && c in club.courts && InLine(club.courts[c], x)
    && call.read.minutes == minutes && !ClosedAt(club.courts[c], call.read.now)
    && (forall i :: 0 <= i <= GroupOf(club.courts[c].queue, x) && i < |club.courts[c].queue| ==>
          club.courts[c].queue[i] <= call.read.usable)
    && var o := Step(club, call.req, call.read);
       (o.Committed? && !call.req.Resize? && call.req.court == c ==>
          Undisturbed(club.courts[c], call.req, o.note, call.read))
  }

  lemma PairGoneKeepsPlace(ct: Court, g: nat, rest: set<PassId>, x: PassId)
    requires Tidy(ct) && g < |ct.queue| && rest <= ct.queue[g] && InLine(ct.(queue := ct.queue[g := rest]), x)
    ensures GroupOf(ct.queue[g := rest], x) == GroupOf(ct.queue, x)
  {
    var queue := ct.queue[g := rest];
    var i := GroupOf(queue, x);
    assert x in ct.queue[i];
  }

  /** An action that ends no session and dissolves no group in line keeps everyone's place. */
  lemma QuietActKeepsPlace(ct: Court, req: Request, errors: seq<CredError>, r: Reads, x: PassId)
    requires Tidy(ct) && DistinctParty(req) && !req.Resize? && AllowedSize(req) && ActOn(ct, req, errors, r).Committed?
    requires !EndsSession(ActOn(ct, req, errors, r).note) && !req.Expire? && ActOn(ct, req, errors, r).note != LeftQueue(true)
    requires InLine(ct, x) && InLine(ActOn(ct, req, errors, r).value, x)
    ensures GroupOf(ActOn(ct, req, errors, r).value.queue, x) == GroupOf(ct.queue, x)
  {
    if req.LeaveQueue? {
      var g := GroupOf(ct.queue, req.party.holders[0].pass);
      PairGoneKeepsPlace(ct, g, ct.queue[g] - Passes(req.party.holders), x);
    } else {
      QuietActKeepsLine(ct, req, errors, r);
      SameGroupOf(ct, ActOn(ct, req, errors, r).value, x);
    }
  }

  /** Timer zero with a usable head: the head plays from now, everyone else moves up by one. */
  lemma HeadGoesOn(ct: Court, r: Reads, x: PassId)
    requires Tidy(ct) && ct.session.Some? && InLine(ct, x) && !ClosedAt(ct, r.now) && r.now == ct.session.value.endsAt
    requires forall i :: 0 <= i <= GroupOf(ct.queue, x) && i < |ct.queue| ==> ct.queue[i] <= r.usable
    ensures ExpireOn(ct, r).Committed? && ExpireOn(ct, r).note == Promoted(0)
    ensures var ct' := ExpireOn(ct, r).value;
            && ct'.session == Some(Session(ct.queue[0], r.now, r.now + r.minutes * MINUTE, 0))
            && ct'.queue == ct.queue[1..]
            && (x in Players(ct') <==> GroupOf(ct.queue, x) == 0)
            && (InLine(ct', x) ==> GroupOf(ct'.queue, x) == GroupOf(ct.queue, x) - 1)
  {
    assert FirstUsable(ct.queue, r.usable) == 0;
    if InLine(PromoteNext(ct, r).court, x) {
      PromoteMovesLine(ct, r, x);
    }
  }

  /** One undisturbed call: a pass still in line is due when it was; one that goes on court does so when due. */
  lemma OnTimeCall(club: Club, call: Call, c: int, x: PassId, minutes: nat)
    requires WellFormed(club) && DistinctParty(call.req) && OnTime(club, call, c, x, minutes)
    requires club.courts[c].session.Some? && c in After(club, call).courts && OnRoster(After(club, call).courts[c], x)
    ensures var ct, ct' := club.courts[c], After(club, call).courts[c];
            var due := DueAt(ct.session.value, GroupOf(ct.queue, x) + 1, minutes);
            && ct'.session.Some?
            && (InLine(ct', x) ==> DueAt(ct'.session.value, GroupOf(ct'.queue, x) + 1, minutes) == due)
            && (!InLine(ct', x) ==> x in Players(ct') && ct'.session.value.startedAt == due)
  {
    var ct, ct', req, r := club.courts[c], After(club, call).courts[c], call.req, call.read;
    CourtAfter(club, call, c);
    assert Tidy(ct);
    if ct' != ct {
      if Errors(club, req) == [] {
        NewcomersUnplaced(club, req);
      }
      hide WellFormed, OnRoster, Errors, ActOn, Tidy, InLine, GroupOf;
      ActIsOnTime(ct, req, Errors(club, req), r, x, minutes);
    }
  }

  lemma OneSessionLater(s: Session, s': Session, g: nat, minutes: nat)
    requires s'.endsAt == s.endsAt + minutes * MINUTE
    ensures g > 0 ==> DueAt(s', g, minutes) == DueAt(s, g + 1, minutes)
    ensures DueAt(s, 1, minutes) == s.endsAt
  {
    if g > 0 {
      assert (g - 1) * (minutes * 60_000) + minutes * 60_000 == g * (minutes * 60_000);
    }
  }

  lemma ActIsOnTime(ct: Court, req: Request, errors: seq<CredError>, r: Reads, x: PassId, minutes: nat)
    requires Tidy(ct) && DistinctParty(req) && !req.Resize? && AllowedSize(req)
    requires ct.session.Some? && InLine(ct, x) && !ClosedAt(ct, r.now) && r.minutes == minutes
    requires forall i :: 0 <= i <= GroupOf(ct.queue, x) && i < |ct.queue| ==> ct.queue[i] <= r.usable
    requires ActOn(ct, req, errors, r).Committed? && Undisturbed(ct, req, ActOn(ct, req, errors, r).note, r)
    requires OnRoster(ActOn(ct, req, errors, r).value, x)
    requires errors == [] ==> forall y :: y in Newcomers(req) ==> !OnRoster(ct, y)
    ensures var ct' := ActOn(ct, req, errors, r).value;
            var due := DueAt(ct.session.value, GroupOf(ct.queue, x) + 1, minutes);
            && ct'.session.Some?
            && (InLine(ct', x) ==> DueAt(ct'.session.value, GroupOf(ct'.queue, x) + 1, minutes) == due)
            && (!InLine(ct', x) ==> x in Players(ct') && ct'.session.value.startedAt == due)
  {
    hide Tidy, GroupOf, ActOn, DueAt, FirstUsable, OnRoster, InLine, Passes;
    if req.Expire? {
      ExpiryEndsSession(ct, req, errors, r, x);
      ExpiryIsOnTime(ct, r, x);
    } else {
      assert !EndsSession(ActOn(ct, req, errors, r).note);
      QuietActKeepsTimes(ct, req, errors, r, x);
      RosterIsLineOrCourt(ActOn(ct, req, errors, r).value, x);
      QuietActKeepsPlace(ct, req, errors, r, x);
      SameDue(ct.session.value, ActOn(ct, req, errors, r).value.session.value, GroupOf(ct.queue, x) + 1, minutes);
    }
  }

  lemma ExpiryEndsSession(ct: Court, req: Request, errors: seq<CredError>, r: Reads, x: PassId)
    requires req.Expire? && ActOn(ct, req, errors, r).Committed? && InLine(ct, x) && !ClosedAt(ct, r.now)
    requires forall i :: 0 <= i <= GroupOf(ct.queue, x) && i < |ct.queue| ==> ct.queue[i] <= r.usable
    ensures ActOn(ct, req, errors, r) == ExpireOn(ct, r) && EndsSession(ExpireOn(ct, r).note)
  {
    assert ct.queue[0] <= r.usable;
  }

  lemma RosterIsLineOrCourt(ct: Court, x: PassId)
    requires OnRoster(ct, x)
    ensures x in Players(ct) || InLine(ct, x)
  {
  }

  lemma SameDue(s: Session, s': Session, p: nat, minutes: nat)
    requires s'.endsAt == s.endsAt
    ensures DueAt(s', p, minutes) == DueAt(s, p, minutes)
  {
  }

  /** Timer zero, on the dot, keeps the line's due times. */
  lemma ExpiryIsOnTime(ct: Court, r: Reads, x: PassId)
    requires Tidy(ct) && ct.session.Some? && InLine(ct, x) && !ClosedAt(ct, r.now) && r.now == ct.session.value.endsAt
    requires forall i :: 0 <= i <= GroupOf(ct.queue, x) && i < |ct.queue| ==> ct.queue[i] <= r.usable
    requires ExpireOn(ct, r).Committed? && OnRoster(ExpireOn(ct, r).value, x)
    ensures var ct' := ExpireOn(ct, r).value;
            var due := DueAt(ct.session.value, GroupOf(ct.queue, x) + 1, r.minutes);
            && ct'.session.Some?
            && (InLine(ct', x) ==> DueAt(ct'.session.value, GroupOf(ct'.queue, x) + 1, r.minutes) == due)
            && (!InLine(ct', x) ==> x in Players(ct') && ct'.session.value.startedAt == due)
  {
    HeadGoesOn(ct, r, x);
    hide *;
    RosterIsLineOrCourt(ExpireOn(ct, r).value, x);
    OneSessionLater(ct.session.value, ExpireOn(ct, r).value.session.value, GroupOf(ct.queue, x), r.minutes);
  }

  /** An action that ends no session leaves the running one's times alone and puts nobody from the line on court. */
  lemma QuietActKeepsTimes(ct: Court, req: Request, errors: seq<CredError>, r: Reads, x: PassId)
    requires Tidy(ct) && !req.Resize? && !req.Expire? && AllowedSize(req) && ct.session.Some? && InLine(ct, x)
    requires ActOn(ct, req, errors, r).Committed? && !EndsSession(ActOn(ct, req, errors, r).note)
    requires errors == [] ==> forall y :: y in Newcomers(req) ==> !OnRoster(ct, y)
    ensures ActOn(ct, req, errors, r).value.session.Some?
    ensures ActOn(ct, req, errors, r).value.session.value.endsAt == ct.session.value.endsAt
    ensures x !in Players(ActOn(ct, req, errors, r).value)
  {
    assert x !in Players(ct) && OnRoster(ct, x);
    hide Tidy, InLine, GroupOf, FirstUsable, Everyone, OnRoster;
  }

  // ---- runs -----------------------------------------------------------------

  /** The pass waits, undisturbed, before every call; after it, it waits or is on court. */
  ghost predicate OnTimeRun(club: Club, calls: seq<Call>, c: int, x: PassId, minutes: nat) {
    calls == [] ||
    var init := calls[..|calls| - 1];
    && OnTimeRun(club, init, c, x, minutes)
    && OnTime(Run(club, init), calls[|calls| - 1], c, x, minutes)
    && c in Run(club, calls).courts && OnRoster(Run(club, calls).courts[c], x)
  }

  lemma {:induction false} DueOverRun(club: Club, calls: seq<Call>, c: int, x: PassId, minutes: nat)
    requires WellFormed(club) && ProperCalls(calls) && OnTimeRun(club, calls, c, x, minutes)
    requires c in club.courts && InLine(club.courts[c], x) && club.courts[c].session.Some?
    ensures c in Run(club, calls).courts && Run(club, calls).courts[c].session.Some?
    ensures var ct, ct' := club.courts[c], Run(club, calls).courts[c];
            var due := DueAt(ct.session.value, GroupOf(ct.queue, x) + 1, minutes);
            && (InLine(ct', x) ==> DueAt(ct'.session.value, GroupOf(ct'.queue, x) + 1, minutes) == due)
            && (!InLine(ct', x) ==> x in Players(ct') && ct'.session.value.startedAt == due)
  {
    if calls != [] {
      var init, last := calls[..|calls| - 1], calls[|calls| - 1];
      DueOverRun(club, init, c, x, minutes);
      RunKeepsWellFormed(club, init);
      OnTimeCall(Run(club, init), last, c, x, minutes);
      hide DueAt, GroupOf, InLine, WellFormed, OnRoster;
    }
  }

  /**
   The ETA is attained: over a run without disturbance a pass shown at position
   p goes on court exactly p - 1 full sessions after the running one ends, and
   until then is still due at that instant. So the minutes shown at any `now`
   before timer zero are right to within half a minute.
   */
  lemma EtaIsAttained(club: Club, calls: seq<Call>, c: int, x: PassId, minutes: nat, now: int)
    requires WellFormed(club) && ProperCalls(calls) && OnTimeRun(club, calls, c, x, minutes)
    requires c in club.courts && InLine(club.courts[c], x) && club.courts[c].session.Some?
    requires now <= club.courts[c].session.value.endsAt
    ensures c in Run(club, calls).courts && Run(club, calls).courts[c].session.Some?
    ensures var ct, ct', p := club.courts[c], Run(club, calls).courts[c], GroupOf(club.courts[c].queue, x) + 1;
            var due := DueAt(ct.session.value, p, minutes);
            && (x in Players(ct') ==> ct'.session.value.startedAt == due)
            && (x !in Players(ct') ==>
                  InLine(ct', x) && DueAt(ct'.session.value, GroupOf(ct'.queue, x) + 1, minutes) == due)
            && -31_000 < now + EtaMinutes(ct, p, minutes, now) * 60_000 - due <= 30_000
  {
    hide DueAt, GroupOf, OnTimeRun, Run, EtaMinutes, InLine, ProperCalls, WellFormed, Players;
    DueOverRun(club, calls, c, x, minutes);
    EtaIsNearDue(club.courts[c], GroupOf(club.courts[c].queue, x) + 1, minutes, now);
    RunKeepsWellFormed(club, calls);
    if InLine(Run(club, calls).courts[c], x) {
      WaitsOffCourt(Run(club, calls), c, x);
    }
  }

  lemma WaitsOffCourt(club: Club, c: int, x: PassId)
    requires WellFormed(club) && c in club.courts && InLine(club.courts[c], x)
    ensures x !in Players(club.courts[c])
  {
    assert Tidy(club.courts[c]);
  }

  /** An engine that resolves court c at each timer zero of n full sessions. */
  function Expiries(c: int, n: nat, first: int, r: Reads): seq<Call> {
    seq(n, i => Call(Expire(c), r.(now := first + i * (r.minutes * 60_000))))
  }

  /** Such a run exists for every open court: the first n usable groups go on one after the other, group n when due. */
  lemma {:induction false} PunctualEngine(club: Club, c: int, n: nat, r: Reads)
    requires c in club.courts && club.courts[c].session.Some? && n <= |club.courts[c].queue|
    requires forall i :: 0 <= i < n ==> club.courts[c].queue[i] <= r.usable
    requires forall i: nat :: i < n ==>
               !ClosedAt(club.courts[c], club.courts[c].session.value.endsAt + i * (r.minutes * 60_000))
    ensures var ct := club.courts[c];
            var club' := Run(club, Expiries(c, n, ct.session.value.endsAt, r));
            c in club'.courts && club'.courts[c] == ct.(queue := ct.queue[n..], session := club'.courts[c].session)
            && club'.courts[c].session.Some?
            && club'.courts[c].session.value.endsAt == DueAt(ct.session.value, n + 1, r.minutes)
            && (n > 0 ==> Players(club'.courts[c]) == ct.queue[n - 1]
                          && club'.courts[c].session.value.startedAt == DueAt(ct.session.value, n, r.minutes))
  {
    if n > 0 {
      var ct := club.courts[c];
      var first, slot := ct.session.value.endsAt, r.minutes * 60_000;
      PunctualEngine(club, c, n - 1, r);
      var calls, before := Expiries(c, n, first, r), Run(club, Expiries(c, n - 1, first, r));
      assert calls[..n - 1] == Expiries(c, n - 1, first, r);
      assert calls[n - 1] == Call(Expire(c), r.(now := first + (n - 1) * slot));
      NextDue(ct.session.value, n, r.minutes);
      hide Expiries, DueAt;
      HeadTakesOver(before.courts[c], calls[n - 1].read);
    }
  }

  lemma NextDue(s: Session, n: nat, minutes: nat)
    requires n > 0
    ensures DueAt(s, n, minutes) == s.endsAt + (n - 1) * (minutes * 60_000)
    ensures DueAt(s, n + 1, minutes) == DueAt(s, n, minutes) + minutes * MINUTE
  {
    assert n * (minutes * 60_000) == (n - 1) * (minutes * 60_000) + minutes * 60_000;
  }

  lemma HeadTakesOver(ct: Court, r: Reads)
    requires ct.session.Some? && ct.queue != [] && ct.queue[0] <= r.usable
    requires !ClosedAt(ct, r.now) && r.now == ct.session.value.endsAt
    ensures ExpireOn(ct, r) == Committed(ct.(session := Some(Session(ct.queue[0], r.now, r.now + r.minutes * MINUTE, 0)),
                                             queue := ct.queue[1..]), Promoted(0))
  {
  }
}
