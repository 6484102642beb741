/**
 The life of one refresh token, in terms of its row and of the calls of a run:
 when an exchange succeeds, what it mints, how long a token lasts, what a
 sign-out ends, and how long a used token is remembered.
 */
module TokenLife {
  import opened Wrappers
  import opened RefreshTokens

  const NINETY_DAYS: int := 90 * 86_400_000_000
  const SEVEN_DAYS: int := 7 * 86_400_000_000

  /** The age in whole seconds, truncated toward zero, is at most `grace`. */
  predicate WithinGrace(used: int, now: int, grace: int) {
    if grace >= 0 then now - used < (grace + 1) * 1_000_000 else now - used <= grace * 1_000_000
  }

  lemma GraceInMicroseconds(used: int, now: int, grace: int)
    ensures Seconds(now - used) <= grace <==> WithinGrace(used, now, grace)
  {
  }

  // ---- one exchange ---------------------------------------------------------

  /** A stored, unrevoked, unexpired token of an active user. */
  predicate Good(s: Store, t: Token, now: int, active: bool) {
    t in s.rows && s.rows[t].revokedAt.None? && now < s.rows[t].expiresAt && active
  }

  /** Exactly when an exchange succeeds, retries, or ends the family; it is turned away otherwise. */
  lemma ExchangeSucceedsExactlyWhen(calls: seq<Call>, i: nat, grace: int)
    requires i < |calls| && calls[i].event.Exchange?
    ensures var t, s, now, answer := calls[i].event.token, Before(calls, i, grace), calls[i].now, Answer(calls, i, grace);
            var good := Good(s, t, now, calls[i].event.active);
            && (answer.Exchanged? <==> good && s.rows[t].usedAt.None?)
            && (answer.Grace? <==> good && s.rows[t].usedAt.Some? && WithinGrace(s.rows[t].usedAt.value, now, grace))
            && (answer.ReuseRevoked? <==>
                  good && s.rows[t].usedAt.Some? && !WithinGrace(s.rows[t].usedAt.value, now, grace))
            && (answer.Rejected? <==> !good)
  {
    var t, s := calls[i].event.token, Before(calls, i, grace);
    if t in s.rows && s.rows[t].usedAt.Some? {
      GraceInMicroseconds(s.rows[t].usedAt.value, calls[i].now, grace);
    }
    hide Before, WithinGrace, Seconds;
  }

  /** A successful exchange mints one unused token, in the same family and for the same user, and marks the old one used. */
  lemma ExchangeMints(calls: seq<Call>, i: nat, grace: int)
    requires i < |calls| && calls[i].event.Exchange? && Answer(calls, i, grace).Success()
    ensures var t, s, s' := calls[i].event.token, Before(calls, i, grace), Before(calls, i + 1, grace);
            var next := Answer(calls, i, grace).next;
            && t in s.rows && t in s'.rows && next !in s.rows && s'.rows.Keys == s.rows.Keys + {next}
            && Answer(calls, i, grace).user == s.rows[t].user
            && s'.rows[next] == Row(s.rows[t].user, s.rows[t].family, calls[i].now + NINETY_DAYS, None, None)
            && s'.rows[t].usedAt == (if s.rows[t].usedAt.Some? then s.rows[t].usedAt else Some(calls[i].now))
            && forall u :: u in s.rows && u != t ==> s'.rows[u] == s.rows[u]
  {
    RunIsFresh(calls, i, grace);
    NextStore(calls, i, grace);
    hide Before;
  }

  lemma {:induction false} FamiliesGrow(calls: seq<Call>, i: nat, j: nat, grace: int)
    requires i <= j <= |calls|
    ensures Before(calls, i, grace).nextFamily <= Before(calls, j, grace).nextFamily
  {
    if i < j {
      FamiliesGrow(calls, i, j - 1, grace);
      RunIsFresh(calls, j - 1, grace);
      NextStore(calls, j - 1, grace);
      CallEvolves(Before(calls, j - 1, grace), calls[j - 1], grace);
      hide After;
    }
  }

  /** A login mints one unused token in a family no earlier token ever had. */
  lemma LoginStartsFamily(calls: seq<Call>, i: nat, j: nat, t: Token, grace: int)
    requires j <= i < |calls| && calls[i].event.Login? && t in Before(calls, j, grace).rows
    ensures var s, s' := Before(calls, i, grace), Before(calls, i + 1, grace);
            exists next :: next !in s.rows && s'.rows.Keys == s.rows.Keys + {next}
                           && s'.rows[next].(family := 0)
                              == Row(calls[i].event.user, 0, calls[i].now + NINETY_DAYS, None, None)
                           && s'.rows[next].family != Before(calls, j, grace).rows[t].family
  {
    RunIsFresh(calls, j, grace);
    RunIsFresh(calls, i, grace);
    NextStore(calls, i, grace);
    FamiliesGrow(calls, j, i, grace);
    var s := Before(calls, i, grace);
    assert s.nextToken !in s.rows;
    hide Before;
  }

  // ---- how long a token lasts -----------------------------------------------

  /** Call i minted the token. */
  predicate MintedBy(calls: seq<Call>, i: nat, t: Token, grace: int)
    requires i < |calls|
  {
    t !in Before(calls, i, grace).rows && t in Before(calls, i + 1, grace).rows
  }

  lemma MintedRow(calls: seq<Call>, i: nat, t: Token, grace: int)
    requires i < |calls| && MintedBy(calls, i, t, grace)
    ensures Before(calls, i + 1, grace).rows[t].expiresAt == calls[i].now + NINETY_DAYS
    ensures Before(calls, i + 1, grace).rows[t].usedAt.None? && Before(calls, i + 1, grace).rows[t].revokedAt.None?
  {
    NextStore(calls, i, grace);
    hide Before;
  }

  lemma {:induction false} ExpiryIsFixed(calls: seq<Call>, i: nat, j: nat, t: Token, grace: int)
    requires i <= j <= |calls| && t in Before(calls, i, grace).rows
    ensures t < Before(calls, j, grace).nextToken
    ensures t in Before(calls, j, grace).rows ==>
              Before(calls, j, grace).rows[t].expiresAt == Before(calls, i, grace).rows[t].expiresAt
  {
    RunIsFresh(calls, i, grace);
    if i < j {
      ExpiryIsFixed(calls, i, j - 1, t, grace);
      RunIsFresh(calls, j - 1, grace);
      NextStore(calls, j - 1, grace);
      CallEvolves(Before(calls, j - 1, grace), calls[j - 1], grace);
      hide After;
    }
  }

  /** From ninety days after it was minted on, a token is turned away. */
  lemma TokenExpires(calls: seq<Call>, i: nat, j: nat, t: Token, grace: int)
    requires i < j < |calls| && MintedBy(calls, i, t, grace)
    requires calls[j].event.Exchange? && calls[j].event.token == t && calls[j].now >= calls[i].now + NINETY_DAYS
    ensures Answer(calls, j, grace) == Rejected
  {
    MintedRow(calls, i, t, grace);
    ExpiryIsFixed(calls, i + 1, j, t, grace);
    ExchangeSucceedsExactlyWhen(calls, j, grace);
    hide Before;
  }

  /** A token left alone by every call in between is good for exactly ninety days. */
  lemma TokenLastsExactly(calls: seq<Call>, i: nat, j: nat, t: Token, grace: int)
    requires i < j < |calls| && Forward(calls) && MintedBy(calls, i, t, grace) && calls[j].event == Exchange(t, true)
    requires forall k :: i < k < j ==> SparesAt(calls, k, t, grace)
    ensures Answer(calls, j, grace).Success() <==> calls[j].now < calls[i].now + NINETY_DAYS
  {
    MintedRow(calls, i, t, grace);
    if calls[j].now < calls[i].now + NINETY_DAYS {
      UnusedTokenStaysGood(calls, i + 1, j, t, grace);
    } else {
      TokenExpires(calls, i, j, t, grace);
    }
    hide Before;
  }

  // ---- signing out ----------------------------------------------------------

  /** The token was handed out, and if still stored it is revoked. */
  ghost predicate Out(s: Store, t: Token) {
    t < s.nextToken && (t in s.rows ==> s.rows[t].revokedAt.Some?)
  }

  lemma {:induction false} OutStaysOut(calls: seq<Call>, i: nat, j: nat, t: Token, grace: int)
    requires i <= j <= |calls| && Out(Before(calls, i, grace), t)
    ensures Out(Before(calls, j, grace), t)
  {
    if i < j {
      OutStaysOut(calls, i, j - 1, t, grace);
      RunIsFresh(calls, j - 1, grace);
      NextStore(calls, j - 1, grace);
      CallEvolves(Before(calls, j - 1, grace), calls[j - 1], grace);
      hide After;
    }
  }

  /** A token signed out, used or not, is never exchanged again. */
  lemma SignedOutStaysOut(calls: seq<Call>, i: nat, j: nat, t: Token, grace: int)
    requires i < j < |calls| && calls[i].event == SignOut(t) && t in Before(calls, i, grace).rows
    requires calls[j].event.Exchange? && calls[j].event.token == t
    ensures Answer(calls, j, grace) == Rejected
  {
    RunIsFresh(calls, i, grace);
    NextStore(calls, i, grace);
    OutStaysOut(calls, i + 1, j, t, grace);
    hide Before;
  }

  /** After a user's tokens are revoked, no token that was theirs by then is ever exchanged again. */
  lemma RevokedUserStaysOut(calls: seq<Call>, k: nat, i: nat, j: nat, t: Token, grace: int)
    requires k <= i < j < |calls| && t in Before(calls, k, grace).rows
    requires calls[i].event == RevokeUser(Before(calls, k, grace).rows[t].user)
    requires calls[j].event.Exchange? && calls[j].event.token == t
    ensures Answer(calls, j, grace) == Rejected
  {
    TokenKeepsFamily(calls, k, i, t, grace);
    NextStore(calls, i, grace);
    assert Out(Before(calls, i + 1, grace), t);
    OutStaysOut(calls, i + 1, j, t, grace);
    hide Before;
  }

  // ---- how long a used token is remembered ----------------------------------

  /** The token is stored, used at `used`, and if revoked, not before that. */
  ghost predicate Remembered(s: Store, t: Token, used: int, expiresAt: int) {
    && t in s.rows && s.rows[t].usedAt == Some(used) && s.rows[t].expiresAt == expiresAt
    && (s.rows[t].revokedAt.Some? ==> s.rows[t].revokedAt.value >= used)
  }

  lemma CallRemembers(s: Store, call: Call, t: Token, used: int, expiresAt: int, grace: int)
    requires Fresh(s) && Remembered(s, t, used, expiresAt) && used <= call.now <= used + SEVEN_DAYS && call.now < expiresAt
    ensures Remembered(After(s, call, grace), t, used, expiresAt)
  {
  }

  lemma {:induction false} WeekIsRemembered(calls: seq<Call>, k: nat, j: nat, t: Token, used: int, expiresAt: int,
                                            grace: int)
    requires k <= j <= |calls| && Remembered(Before(calls, k, grace), t, used, expiresAt)
    requires forall m :: k <= m < j ==> used <= calls[m].now <= used + SEVEN_DAYS && calls[m].now < expiresAt
    ensures Remembered(Before(calls, j, grace), t, used, expiresAt)
  {
    if k < j {
      WeekIsRemembered(calls, k, j - 1, t, used, expiresAt, grace);
      RunIsFresh(calls, j - 1, grace);
      NextStore(calls, j - 1, grace);
      hide Before, After, Remembered;
      CallRemembers(Before(calls, j - 1, grace), calls[j - 1], t, used, expiresAt, grace);
    }
  }

  /**
   Within a week of its use a token is not forgotten, whatever is pruned: if it
   was not revoked, presenting it past grace is noticed and ends its family.
   */
  lemma ReplayWithinAWeekIsNoticed(calls: seq<Call>, k: nat, i: nat, grace: int)
    requires k <= i < |calls| && Forward(calls) && calls[i].event.Exchange?
    requires var t, s := calls[i].event.token, Before(calls, k, grace);
             && t in s.rows && s.rows[t].usedAt.Some? && s.rows[t].revokedAt.None?
             && calls[i].now <= s.rows[t].usedAt.value + SEVEN_DAYS && calls[i].now < s.rows[t].expiresAt
             && !WithinGrace(s.rows[t].usedAt.value, calls[i].now, grace)
    ensures var t, s := calls[i].event.token, Before(calls, i, grace);
            && t in s.rows
            && (s.rows[t].revokedAt.None? && calls[i].event.active ==>
                  Answer(calls, i, grace) == ReuseRevoked
                  && Dead(Before(calls, i + 1, grace), Before(calls, k, grace).rows[t].family))
  {
    var t := calls[i].event.token;
    var row := Before(calls, k, grace).rows[t];
    UsedInThePast(calls, k, t, grace);
    WeekIsRemembered(calls, k, i, t, row.usedAt.value, row.expiresAt, grace);
    ExchangeSucceedsExactlyWhen(calls, i, grace);
    RunIsFresh(calls, i, grace);
    NextStore(calls, i, grace);
    TokenKeepsFamily(calls, k, i, t, grace);
    hide Before, WithinGrace;
  }

  /** A token used over a week before a pruning is gone for good. */
  lemma PruneForgets(calls: seq<Call>, k: nat, i: nat, j: nat, t: Token, grace: int)
    requires k <= i < j <= |calls| && calls[i].event.Prune?
    requires t in Before(calls, k, grace).rows && Before(calls, k, grace).rows[t].usedAt.Some?
    requires Before(calls, k, grace).rows[t].usedAt.value < calls[i].now - SEVEN_DAYS
    ensures t !in Before(calls, j, grace).rows
  {
    RunIsFresh(calls, k, grace);
    UseIsPermanent(calls, k, i, t, Before(calls, k, grace).rows[t].usedAt.value, grace);
    NextStore(calls, i, grace);
    GoneStaysGone(calls, i + 1, j, t, grace);
  }

  lemma {:induction false} GoneStaysGone(calls: seq<Call>, i: nat, j: nat, t: Token, grace: int)
    requires i <= j <= |calls| && t !in Before(calls, i, grace).rows && t < Before(calls, i, grace).nextToken
    ensures t !in Before(calls, j, grace).rows && t < Before(calls, j, grace).nextToken
  {
    if i < j {
      GoneStaysGone(calls, i, j - 1, t, grace);
      RunIsFresh(calls, j - 1, grace);
      NextStore(calls, j - 1, grace);
      CallEvolves(Before(calls, j - 1, grace), calls[j - 1], grace);
      hide After;
    }
  }
}
