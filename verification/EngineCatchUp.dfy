/**
 The expiry engine's catch-up: repeated passes at one instant leave no overdue
 session, and every deadline stays start + (extensions + 1) full sessions.
 */
module EngineCatchUp {
  import opened CourtModel
  import opened CourtInvariant

  /** How far one court is behind at `now`; 0 exactly when nothing is due. */
  function Backlog(ct: Court, now: int): nat {
    if Overdue(ct, now) then now - ct.session.value.endsAt + 1 else 0
  }

  ghost function BacklogUpTo(club: Club, n: nat, now: int): nat {
    if n == 0 then 0
    else BacklogUpTo(club, n - 1, now) + if n in club.courts then Backlog(club.courts[n], now) else 0
  }

  ghost function TotalBacklog(club: Club, now: int): nat {
    BacklogUpTo(club, club.count, now)
  }

  /** Resolving a due court cuts its backlog: an extension by a whole session, anything else to zero. */
  lemma ExpiryCutsBacklog(ct: Court, r: Reads)
    requires Overdue(ct, r.now) && r.minutes > 0
    ensures ExpireOn(ct, r).Committed?
    ensures Backlog(ExpireOn(ct, r).value, r.now) < Backlog(ct, r.now)
    ensures ExpireOn(ct, r).note != Extended ==> Backlog(ExpireOn(ct, r).value, r.now) == 0
  {
  }

  lemma {:induction false} BacklogOfOthers(club: Club, c: int, ct: Court, n: nat, now: int)
    requires c in club.courts
    ensures var club' := club.(courts := club.courts[c := ct]);
            BacklogUpTo(club', n, now) ==
            BacklogUpTo(club, n, now) + if 1 <= c <= n then Backlog(ct, now) - Backlog(club.courts[c], now) else 0
  {
    if n != 0 {
      BacklogOfOthers(club, c, ct, n - 1, now);
    }
  }

  lemma {:induction false} NoBacklogNothingDue(club: Club, n: nat, now: int)
    ensures BacklogUpTo(club, n, now) == 0 <==> forall c :: 1 <= c <= n && c in club.courts ==> !Overdue(club.courts[c], now)
  {
    if n != 0 {
      NoBacklogNothingDue(club, n - 1, now);
    }
  }

  /** One expire transaction, due or not. */
  lemma ExpireCallCutsBacklog(club: Club, c: int, r: Reads)
    requires WellFormed(club) && r.minutes > 0
    ensures var club' := After(club, Call(Expire(c), r));
            && club'.count == club.count && club'.courts.Keys == club.courts.Keys
            && TotalBacklog(club', r.now) <= TotalBacklog(club, r.now)
            && (c in club.courts && Overdue(club.courts[c], r.now) ==> TotalBacklog(club', r.now) < TotalBacklog(club, r.now))
            && (forall d :: d in club.courts && d != c ==> club'.courts[d] == club.courts[d])
  {
    if c in club.courts && Overdue(club.courts[c], r.now) {
      ExpiryCutsBacklog(club.courts[c], r);
      BacklogOfOthers(club, c, ExpireOn(club.courts[c], r).value, club.count, r.now);
    }
  }

  function ExpireCalls(cs: seq<int>, r: Reads): seq<Call> {
    seq(|cs|, i requires 0 <= i < |cs| => Call(Expire(cs[i]), r))
  }

  /** One engine pass over the scanned courts, in any order, makes progress if any of them is due. */
  lemma {:induction false} PassCutsBacklog(club: Club, cs: seq<int>, r: Reads)
    requires WellFormed(club) && r.minutes > 0
    ensures var club' := Run(club, ExpireCalls(cs, r));
            && WellFormed(club') && club'.count == club.count
            && TotalBacklog(club', r.now) <= TotalBacklog(club, r.now)
            && ((exists c :: c in cs && c in club.courts && Overdue(club.courts[c], r.now)) ==>
                  TotalBacklog(club', r.now) < TotalBacklog(club, r.now))
            && (forall d :: d in club.courts && d !in cs ==> d in club'.courts && club'.courts[d] == club.courts[d])
  {
    if cs != [] {
      var init, last := cs[..|cs| - 1], cs[|cs| - 1];
      assert cs == init + [last];
      hide WellFormed, TotalBacklog, After, Overdue;
      PassCutsBacklog(club, init, r);
      assert ExpireCalls(cs, r)[..|cs| - 1] == ExpireCalls(init, r);
      RunKeepsWellFormed(club, ExpireCalls(cs, r));
      ExpireCallCutsBacklog(Run(club, ExpireCalls(init, r)), last, r);
    }
  }

  // ---- deadlines ------------------------------------------------------------

  /** The deadline of a session under a constant session length. */
  ghost predicate OnSchedule(ct: Court, minutes: nat) {
    ct.session.Some? ==>
      ct.session.value.endsAt == ct.session.value.startedAt + (ct.session.value.extensions + 1) * (minutes * MINUTE)
  }

  ghost predicate AllOnSchedule(club: Club, minutes: nat) {
    forall c :: c in club.courts ==> OnSchedule(club.courts[c], minutes)
  }

  lemma ActKeepsSchedule(ct: Court, req: Request, errors: seq<CredError>, r: Reads)
    requires OnSchedule(ct, r.minutes) && !req.Resize? && AllowedSize(req)
    requires ActOn(ct, req, errors, r).Committed?
    ensures OnSchedule(ActOn(ct, req, errors, r).value, r.minutes)
  {
  }

  /** ends_at = started_at + (extensions + 1) * session_minutes in every run with a constant setting. */
  lemma {:induction false} DeadlinesOnSchedule(club: Club, calls: seq<Call>, minutes: nat)
    requires AllOnSchedule(club, minutes)
    requires forall i :: 0 <= i < |calls| ==> calls[i].read.minutes == minutes
    ensures AllOnSchedule(Run(club, calls), minutes)
  {
    if calls != [] {
      var init, last := calls[..|calls| - 1], calls[|calls| - 1];
      DeadlinesOnSchedule(club, init, minutes);
      var before := Run(club, init);
      if !last.req.Resize? && AllowedSize(last.req) && last.req.court in before.courts {
        var ct, errors := before.courts[last.req.court], Errors(before, last.req);
        if ActOn(ct, last.req, errors, last.read).Committed? {
          ActKeepsSchedule(ct, last.req, errors, last.read);
        }
      }
    }
  }
}
