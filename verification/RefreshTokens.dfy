/**
 Rotating refresh tokens: each login starts a family, each exchange replaces a
 token by a successor in its family, and replaying a used token past the grace
 period revokes the whole family. Calls are atomic; instants are microseconds.
 A minted secret is a number never issued before.
 */
module RefreshTokens {
  import opened Wrappers

  type Token = nat
  type Family = nat
  type UserId = nat

  const SECOND: int := 1_000_000
  const DAY: int := 86_400 * SECOND
  const LIFETIME: int := 90 * DAY
  const PRUNE_AFTER: int := 7 * DAY

  datatype Row = Row(user: UserId, family: Family, expiresAt: int, usedAt: Option<int>, revokedAt: Option<int>)

  datatype Store = Store(rows: map<Token, Row>, nextToken: Token, nextFamily: Family)

  const EMPTY := Store(map[], 0, 0)

  datatype Verdict = Exchanged(user: UserId, next: Token) | Grace(user: UserId, next: Token)
                   | RaceGrace(user: UserId, next: Token) | ReuseRevoked | Rejected
  {
    predicate Success() { Exchanged? || Grace? || RaceGrace? }
  }

  /** Whole seconds of a time span, truncated toward zero. */
  function Seconds(span: int): int {
    if span >= 0 then span / SECOND else -(-span / SECOND)
  }

  /** A stored row an exchange does not turn away at once. */
  predicate Live(row: Row, now: int) {
    row.revokedAt.None? && row.expiresAt > now
  }

  function Issued(s: Store, user: UserId, family: Option<Family>, now: int): Store {
    var f := if family.Some? then family.value else s.nextFamily;
    Store(s.rows[s.nextToken := Row(user, f, now + LIFETIME, None, None)], s.nextToken + 1,
          if family.Some? then s.nextFamily else s.nextFamily + 1)
  }

  /** The same tokens, those selected and not yet revoked now revoked. */
  function RevokedWhere(s: Store, now: int, hit: Row -> bool): Store {
    s.(rows := map t | t in s.rows ::
       if hit(s.rows[t]) && s.rows[t].revokedAt.None? then s.rows[t].(revokedAt := Some(now)) else s.rows[t])
  }

  function Pruned(s: Store, now: int): Store {
    s.(rows := map t | t in s.rows && !Spent(s.rows[t], now) :: s.rows[t])
  }

  predicate Spent(row: Row, now: int) {
    || row.expiresAt < now - PRUNE_AFTER
    || (row.revokedAt.Some? && row.revokedAt.value < now - PRUNE_AFTER)
    || (row.usedAt.Some? && row.usedAt.value < now - PRUNE_AFTER)
  }

  /** Exchanging `t`; `active` is the status read for its user. */
  function Rotated(s: Store, t: Token, active: bool, now: int, grace: int): (Store, Verdict) {
    if t !in s.rows || !Live(s.rows[t], now) || !active then (s, Rejected)
    else
      var row := s.rows[t];
      if row.usedAt.None? then
        (Issued(s.(rows := s.rows[t := row.(usedAt := Some(now))]), row.user, Some(row.family), now),
         Exchanged(row.user, s.nextToken))
      else if Seconds(now - row.usedAt.value) <= grace then
        (Issued(s, row.user, Some(row.family), now), Grace(row.user, s.nextToken))
      else (RevokedWhere(s, now, (r: Row) => r.family == row.family), ReuseRevoked)
  }

  // ---- the table ------------------------------------------------------------

  /** The refresh_tokens table, changed statement by statement. */
  class TokenTable {
    var rows: map<Token, Row>
    var nextToken: Token
    var nextFamily: Family

    function Contents(): Store
      reads this
    {
      Store(rows, nextToken, nextFamily)
    }

    /** Tokens and families are handed out in order, so new ones are unused. */
    ghost predicate Valid()
      reads this
    {
      Fresh(Contents())
    }

    constructor ()
      ensures Valid() && Contents() == EMPTY
    {
      rows, nextToken, nextFamily := map[], 0, 0;
    }

    method Issue(user: UserId, family: Option<Family>, now: int) returns (secret: Token)
      requires Valid() && (family.Some? ==> family.value < nextFamily)
      modifies this
      ensures Valid() && secret !in old(rows)
      ensures Contents() == Issued(old(Contents()), user, family, now) && secret == old(nextToken)
    {
      secret := nextToken;
      var f := nextFamily;
      if family.Some? {
        f := family.value;
      } else {
        nextFamily := nextFamily + 1;
      }
      rows := rows[secret := Row(user, f, now + LIFETIME, None, None)];
      nextToken := nextToken + 1;
    }

    /** The single-use claim: how many rows it marked used. */
    method Claim(t: Token, now: int) returns (affected: nat)
      requires Valid()
      modifies `rows
      ensures Valid()
      ensures affected == if t in old(rows) && old(rows)[t].usedAt.None? then 1 else 0
      ensures rows == if affected == 1 then old(rows)[t := old(rows)[t].(usedAt := Some(now))] else old(rows)
    {
      affected := 0;
      if t in rows && rows[t].usedAt.None? {
        rows := rows[t := rows[t].(usedAt := Some(now))];
        affected := 1;
      }
    }

    method RevokeFamily(family: Family, now: int)
      requires Valid()
      modifies `rows
      ensures Valid()
      ensures Contents() == RevokedWhere(old(Contents()), now, (r: Row) => r.family == family)
    {
      rows := map t | t in rows ::
        if rows[t].family == family && rows[t].revokedAt.None? then rows[t].(revokedAt := Some(now)) else rows[t];
    }

    method Rotate(presented: Token, active: bool, now: int, grace: int) returns (verdict: Verdict)
      requires Valid()
      modifies this
      ensures Valid()
      ensures (Contents(), verdict) == Rotated(old(Contents()), presented, active, now, grace)
      ensures !verdict.RaceGrace?
    {
      if presented !in rows {
        return Rejected;
      }
      var row := rows[presented];
      if row.revokedAt.Some? || row.expiresAt <= now || !active {
        return Rejected;
      }
      if row.usedAt.Some? {
        if Seconds(now - row.usedAt.value) <= grace {
          var next := Issue(row.user, Some(row.family), now);
          return Grace(row.user, next);
        }
        RevokeFamily(row.family, now);
        return ReuseRevoked;
      }
      var claimed := Claim(presented, now);
      var next := Issue(row.user, Some(row.family), now);
      verdict := if claimed == 0 then RaceGrace(row.user, next) else Exchanged(row.user, next);
    }

    method Revoke(presented: Token, now: int)
      requires Valid()
      modifies `rows
      ensures Valid()
      ensures Contents() == Logout(old(Contents()), presented, now)
    {
      if presented in rows && rows[presented].revokedAt.None? {
        rows := rows[presented := rows[presented].(revokedAt := Some(now))];
      }
    }

    method RevokeAllForUser(user: UserId, now: int)
      requires Valid()
      modifies `rows
      ensures Valid()
      ensures Contents() == RevokedWhere(old(Contents()), now, (r: Row) => r.user == user)
    {
      rows := map t | t in rows ::
        if rows[t].user == user && rows[t].revokedAt.None? then rows[t].(revokedAt := Some(now)) else rows[t];
    }

    method Prune(now: int)
      requires Valid()
      modifies `rows
      ensures Valid()
      ensures Contents() == Pruned(old(Contents()), now)
    {
      rows := map t | t in rows && !Spent(rows[t], now) :: rows[t];
    }
  }

  function Logout(s: Store, t: Token, now: int): Store {
    if t in s.rows && s.rows[t].revokedAt.None? then s.(rows := s.rows[t := s.rows[t].(revokedAt := Some(now))]) else s
  }

  // ---- runs -----------------------------------------------------------------

  datatype Event = Login(user: UserId) | Exchange(token: Token, active: bool) | SignOut(token: Token)
                 | RevokeUser(user: UserId) | Prune

  datatype Call = Call(now: int, event: Event)

  function After(s: Store, call: Call, grace: int): Store {
    match call.event
    case Login(user) => Issued(s, user, None, call.now)
    case Exchange(t, active) => Rotated(s, t, active, call.now, grace).0
    case SignOut(t) => Logout(s, t, call.now)
    case RevokeUser(user) => RevokedWhere(s, call.now, (r: Row) => r.user == user)
    case Prune => Pruned(s, call.now)
  }

  function Run(s: Store, calls: seq<Call>, grace: int): Store {
    if calls == [] then s else After(Run(s, calls[..|calls| - 1], grace), calls[|calls| - 1], grace)
  }

  /** The store call i of a run meets. */
  function Before(calls: seq<Call>, i: nat, grace: int): Store
    requires i <= |calls|
  {
    Run(EMPTY, calls[..i], grace)
  }

  function Answer(calls: seq<Call>, i: nat, grace: int): Verdict
    requires i < |calls| && calls[i].event.Exchange?
  {
    Rotated(Before(calls, i, grace), calls[i].event.token, calls[i].event.active, calls[i].now, grace).1
  }

  ghost predicate Forward(calls: seq<Call>) {
    forall i, j :: 0 <= i < j < |calls| ==> calls[i].now <= calls[j].now
  }

  ghost predicate Fresh(s: Store) {
    forall t :: t in s.rows ==> t < s.nextToken && s.rows[t].family < s.nextFamily
  }

  /** What one call may do to the rows: the frame every theorem below rests on. */
  ghost predicate Evolves(s: Store, s': Store, now: int) {
    && s.nextToken <= s'.nextToken && s.nextFamily <= s'.nextFamily
    && (forall t :: t in s'.rows && t in s.rows ==>
          && s'.rows[t].user == s.rows[t].user && s'.rows[t].family == s.rows[t].family
          && s'.rows[t].expiresAt == s.rows[t].expiresAt
          && (s.rows[t].usedAt.Some? ==> s'.rows[t].usedAt == s.rows[t].usedAt)
          && (s.rows[t].revokedAt.Some? ==> s'.rows[t].revokedAt == s.rows[t].revokedAt))
    && (forall t :: t in s'.rows && t !in s.rows ==>
          && t >= s.nextToken && s'.rows[t].usedAt.None?
          && (s'.rows[t].family >= s.nextFamily ||
              exists u :: u in s.rows && Live(s.rows[u], now) && s'.rows[t].user == s.rows[u].user
                          && s'.rows[t].family == s.rows[u].family))
  }

  lemma CallEvolves(s: Store, call: Call, grace: int)
    requires Fresh(s)
    ensures Fresh(After(s, call, grace)) && Evolves(s, After(s, call, grace), call.now)
  {
  }

  lemma {:induction false} RunIsFresh(calls: seq<Call>, i: nat, grace: int)
    requires i <= |calls|
    ensures Fresh(Before(calls, i, grace))
  {
    if i > 0 {
      RunIsFresh(calls, i - 1, grace);
      NextStore(calls, i - 1, grace);
      CallEvolves(Before(calls, i - 1, grace), calls[i - 1], grace);
    }
  }

  lemma NextStore(calls: seq<Call>, i: nat, grace: int)
    requires i < |calls|
    ensures Before(calls, i + 1, grace) == After(Before(calls, i, grace), calls[i], grace)
  {
    assert calls[..i + 1][..i] == calls[..i];
  }

  // ---- a family has one user ------------------------------------------------

  ghost predicate FamilyOf(s: Store, f: Family, user: UserId) {
    f < s.nextFamily && forall t :: t in s.rows && s.rows[t].family == f ==> s.rows[t].user == user
  }

  lemma {:induction false} FamilyKeepsUser(calls: seq<Call>, i: nat, j: nat, f: Family, user: UserId, grace: int)
    requires i <= j <= |calls| && FamilyOf(Before(calls, i, grace), f, user)
    ensures FamilyOf(Before(calls, j, grace), f, user)
  {
    if i < j {
      FamilyKeepsUser(calls, i, j - 1, f, user, grace);
      RunIsFresh(calls, j - 1, grace);
      NextStore(calls, j - 1, grace);
      CallEvolves(Before(calls, j - 1, grace), calls[j - 1], grace);
      hide After;
    }
  }

  lemma {:induction false} StoreHasOneUserPerFamily(calls: seq<Call>, i: nat, t: Token, u: Token, grace: int)
    requires i <= |calls| && t in Before(calls, i, grace).rows && u in Before(calls, i, grace).rows
    requires Before(calls, i, grace).rows[t].family == Before(calls, i, grace).rows[u].family
    ensures Before(calls, i, grace).rows[t].user == Before(calls, i, grace).rows[u].user
  {
    if i > 0 {
      var s, s' := Before(calls, i - 1, grace), Before(calls, i, grace);
      RunIsFresh(calls, i - 1, grace);
      NextStore(calls, i - 1, grace);
      CallEvolves(s, calls[i - 1], grace);
      hide After;
      forall v, w | v in s.rows && w in s.rows && s.rows[v].family == s.rows[w].family
        ensures s.rows[v].user == s.rows[w].user
      {
        StoreHasOneUserPerFamily(calls, i - 1, v, w, grace);
      }
      assert Evolves(s, s', calls[i - 1].now);
    }
  }

  /** Tokens of one family belong to one user, even if they were never stored at the same time. */
  lemma FamilyHasOneUser(calls: seq<Call>, i: nat, t: Token, j: nat, u: Token, grace: int)
    requires i <= j <= |calls| && t in Before(calls, i, grace).rows && u in Before(calls, j, grace).rows
    requires Before(calls, i, grace).rows[t].family == Before(calls, j, grace).rows[u].family
    ensures Before(calls, i, grace).rows[t].user == Before(calls, j, grace).rows[u].user
  {
    var s := Before(calls, i, grace);
    var f, user := s.rows[t].family, s.rows[t].user;
    RunIsFresh(calls, i, grace);
    forall v | v in s.rows && s.rows[v].family == f ensures s.rows[v].user == user {
      StoreHasOneUserPerFamily(calls, i, t, v, grace);
    }
    FamilyKeepsUser(calls, i, j, f, user, grace);
  }

  // ---- exchanges of one token -----------------------------------------------

  /** Once used or gone, a token keeps its first use or stays gone. */
  ghost predicate UsedBy(s: Store, t: Token, used: int) {
    t < s.nextToken && (t in s.rows ==> s.rows[t].usedAt == Some(used))
  }

  lemma {:induction false} UseIsPermanent(calls: seq<Call>, i: nat, j: nat, t: Token, used: int, grace: int)
    requires i <= j <= |calls| && UsedBy(Before(calls, i, grace), t, used)
    ensures UsedBy(Before(calls, j, grace), t, used)
  {
    if i < j {
      UseIsPermanent(calls, i, j - 1, t, used, grace);
      RunIsFresh(calls, j - 1, grace);
      NextStore(calls, j - 1, grace);
      CallEvolves(Before(calls, j - 1, grace), calls[j - 1], grace);
      hide After;
    }
  }

  lemma FirstUseIsNow(s: Store, call: Call, t: Token, grace: int)
    requires Fresh(s) && t in After(s, call, grace).rows && After(s, call, grace).rows[t].usedAt.Some?
    ensures t in s.rows && (s.rows[t].usedAt.None? ==> After(s, call, grace).rows[t].usedAt.value == call.now)
    ensures s.rows[t].usedAt.Some? ==> After(s, call, grace).rows[t].usedAt == s.rows[t].usedAt
  {
  }

  lemma {:induction false} UsedInThePast(calls: seq<Call>, i: nat, t: Token, grace: int)
    requires i <= |calls| && Forward(calls)
    requires t in Before(calls, i, grace).rows && Before(calls, i, grace).rows[t].usedAt.Some?
    ensures exists k :: 0 <= k < i && calls[k].now == Before(calls, i, grace).rows[t].usedAt.value
  {
    if i > 0 {
      var s, s' := Before(calls, i - 1, grace), Before(calls, i, grace);
      RunIsFresh(calls, i - 1, grace);
      NextStore(calls, i - 1, grace);
      FirstUseIsNow(s, calls[i - 1], t, grace);
      hide After, Before;
      if s.rows[t].usedAt.Some? {
        UsedInThePast(calls, i - 1, t, grace);
      } else {
        assert calls[i - 1].now == s'.rows[t].usedAt.value;
      }
    }
  }

  /** All successful exchanges of one token lie within the grace period, and only the first is not a retry. */
  lemma ExchangesWithinGrace(calls: seq<Call>, i: nat, j: nat, grace: int)
    requires i < j < |calls| && Forward(calls)
    requires calls[i].event.Exchange? && calls[j].event.Exchange? && calls[i].event.token == calls[j].event.token
    requires Answer(calls, i, grace).Success() && Answer(calls, j, grace).Success()
    ensures Seconds(calls[j].now - calls[i].now) <= grace
    ensures Answer(calls, j, grace).Grace?
    ensures Answer(calls, i, grace).user == Answer(calls, j, grace).user
  {
    var t, s := calls[i].event.token, Before(calls, i, grace);
    RunIsFresh(calls, i, grace);
    NextStore(calls, i, grace);
    CallEvolves(s, calls[i], grace);
    var s' := Before(calls, i + 1, grace);
    var used := s'.rows[t].usedAt.value;
    UseIsPermanent(calls, i + 1, j, t, used, grace);
    UsedInThePast(calls, i + 1, t, grace);
    assert used <= calls[i].now <= calls[j].now;
    TokenKeepsFamily(calls, i, j, t, grace);
  }

  lemma {:induction false} TokenKeepsFamily(calls: seq<Call>, i: nat, j: nat, t: Token, grace: int)
    requires i <= j <= |calls| && t in Before(calls, i, grace).rows
    ensures t < Before(calls, j, grace).nextToken
    ensures t in Before(calls, j, grace).rows ==>
              && Before(calls, j, grace).rows[t].family == Before(calls, i, grace).rows[t].family
              && Before(calls, j, grace).rows[t].user == Before(calls, i, grace).rows[t].user
  {
    RunIsFresh(calls, i, grace);
    if i < j {
      TokenKeepsFamily(calls, i, j - 1, t, grace);
      RunIsFresh(calls, j - 1, grace);
      NextStore(calls, j - 1, grace);
      CallEvolves(Before(calls, j - 1, grace), calls[j - 1], grace);
      hide After;
    }
  }

  // ---- reuse kills the family -----------------------------------------------

  /** No stored token of the family can be exchanged, and no new one can join it. */
  ghost predicate Dead(s: Store, f: Family) {
    f < s.nextFamily && forall t :: t in s.rows && s.rows[t].family == f ==> s.rows[t].revokedAt.Some?
  }

  lemma {:induction false} DeadStaysDead(calls: seq<Call>, i: nat, j: nat, f: Family, grace: int)
    requires i <= j <= |calls| && Dead(Before(calls, i, grace), f)
    ensures Dead(Before(calls, j, grace), f)
  {
    if i < j {
      DeadStaysDead(calls, i, j - 1, f, grace);
      RunIsFresh(calls, j - 1, grace);
      NextStore(calls, j - 1, grace);
      CallEvolves(Before(calls, j - 1, grace), calls[j - 1], grace);
      hide After;
    }
  }

  /**
   After a replay past grace every stored token of the family is revoked, and no
   token that ever belonged to the family (stored at any point k of the run) is
   exchanged again, whatever is pruned in between.
   */
  lemma ReuseEndsTheFamily(calls: seq<Call>, i: nat, j: nat, k: nat, grace: int)
    requires i < j < |calls| && k <= |calls|
    requires calls[i].event.Exchange? && Answer(calls, i, grace).ReuseRevoked?
    requires calls[j].event.Exchange? && calls[j].event.token in Before(calls, k, grace).rows
    requires Before(calls, k, grace).rows[calls[j].event.token].family
             == Before(calls, i, grace).rows[calls[i].event.token].family
    ensures Dead(Before(calls, i + 1, grace), Before(calls, i, grace).rows[calls[i].event.token].family)
    ensures Answer(calls, j, grace) == Rejected
  {
    var f, u := Before(calls, i, grace).rows[calls[i].event.token].family, calls[j].event.token;
    RunIsFresh(calls, i, grace);
    NextStore(calls, i, grace);
    DeadStaysDead(calls, i + 1, j, f, grace);
    if u in Before(calls, j, grace).rows {
      if k <= j {
        TokenKeepsFamily(calls, k, j, u, grace);
      } else {
        TokenKeepsFamily(calls, j, k, u, grace);
      }
    }
  }

  /** A stored used token presented past grace kills its living family exactly when it is live and its user active. */
  lemma StoredReplayKillsExactlyWhen(s: Store, t: Token, active: bool, now: int, grace: int)
    requires Fresh(s) && t in s.rows && !Dead(s, s.rows[t].family)
    requires s.rows[t].usedAt.Some? && Seconds(now - s.rows[t].usedAt.value) > grace
    ensures Dead(Rotated(s, t, active, now, grace).0, s.rows[t].family) <==> Live(s.rows[t], now) && active
  {
  }

  /**
   Exactly when presenting an already-used token past grace kills its (still
   living) family: its row is still stored, unrevoked and unexpired, and the
   user is active. `t` was used by call k at the latest; it is presented by a
   later call i. The module's own comment promises the kill for every used token.
   */
  lemma ReplayKillsExactlyWhen(calls: seq<Call>, k: nat, i: nat, grace: int)
    requires k <= i < |calls| && calls[i].event.Exchange?
    requires var t := calls[i].event.token;
             && t in Before(calls, k, grace).rows && Before(calls, k, grace).rows[t].usedAt.Some?
             && Seconds(calls[i].now - Before(calls, k, grace).rows[t].usedAt.value) > grace
             && !Dead(Before(calls, i, grace), Before(calls, k, grace).rows[t].family)
    ensures var t, s := calls[i].event.token, Before(calls, i, grace);
            Dead(Before(calls, i + 1, grace), Before(calls, k, grace).rows[t].family) <==>
              t in s.rows && Live(s.rows[t], calls[i].now) && calls[i].event.active
  {
    var t, s := calls[i].event.token, Before(calls, i, grace);
    RunIsFresh(calls, k, grace);
    RunIsFresh(calls, i, grace);
    NextStore(calls, i, grace);
    TokenKeepsFamily(calls, k, i, t, grace);
    UseIsPermanent(calls, k, i, t, Before(calls, k, grace).rows[t].usedAt.value, grace);
    if t in s.rows {
      StoredReplayKillsExactlyWhen(s, t, calls[i].event.active, calls[i].now, grace);
    }
    hide Before, Dead, Live;
  }

  /** A replayed token that was signed out leaves its successor exchangeable. */
  lemma SignedOutReplayGoesUnnoticed()
    ensures var calls := [Call(0, Login(7)), Call(0, Exchange(0, true)), Call(1, SignOut(0)),
                          Call(100 * SECOND, Exchange(0, true)), Call(101 * SECOND, Exchange(1, true))];
            Answer(calls, 3, 60) == Rejected && Answer(calls, 4, 60) == Exchanged(7, 2)
  {
    var calls := [Call(0, Login(7)), Call(0, Exchange(0, true)), Call(1, SignOut(0)),
                  Call(100 * SECOND, Exchange(0, true)), Call(101 * SECOND, Exchange(1, true))];
    NextStore(calls, 0, 60);
    NextStore(calls, 1, 60);
    NextStore(calls, 2, 60);
    NextStore(calls, 3, 60);
  }

  /** Pruning forgets a used token after a week, so its replay is turned away without touching the family. */
  lemma PrunedReplayGoesUnnoticed()
    ensures var calls := [Call(0, Login(7)), Call(0, Exchange(0, true)), Call(8 * DAY, Prune),
                          Call(8 * DAY, Exchange(0, true)), Call(8 * DAY, Exchange(1, true))];
            Answer(calls, 3, 60) == Rejected && Answer(calls, 4, 60) == Exchanged(7, 2)
  {
    var calls := [Call(0, Login(7)), Call(0, Exchange(0, true)), Call(8 * DAY, Prune),
                  Call(8 * DAY, Exchange(0, true)), Call(8 * DAY, Exchange(1, true))];
    NextStore(calls, 0, 60);
    NextStore(calls, 1, 60);
    NextStore(calls, 2, 60);
    NextStore(calls, 3, 60);
  }

  // ---- an honest client stays signed in -------------------------------------

  /** The call neither presents, signs out nor revokes token t, nor is a replay in its family. */
  ghost predicate Spares(s: Store, call: Call, t: Token, grace: int)
    requires t in s.rows
  {
    match call.event
    case Exchange(u, active) =>
      u != t && !(Rotated(s, u, active, call.now, grace).1.ReuseRevoked? && s.rows[u].family == s.rows[t].family)
    case SignOut(u) => u != t
    case RevokeUser(user) => user != s.rows[t].user
    case _ => true
  }

  lemma SparedRowStays(s: Store, call: Call, t: Token, grace: int)
    requires Fresh(s) && t in s.rows && s.rows[t].usedAt.None? && s.rows[t].revokedAt.None?
    requires call.now < s.rows[t].expiresAt && Spares(s, call, t, grace)
    ensures t in After(s, call, grace).rows && After(s, call, grace).rows[t] == s.rows[t]
  {
  }

  /** Call k spares token t, if t is still stored. */
  ghost predicate SparesAt(calls: seq<Call>, k: nat, t: Token, grace: int)
    requires k < |calls|
  {
    t in Before(calls, k, grace).rows ==> Spares(Before(calls, k, grace), calls[k], t, grace)
  }

  lemma {:induction false} SparedTokenStays(calls: seq<Call>, i: nat, j: nat, t: Token, row: Row, grace: int)
    requires i <= j <= |calls|
    requires t in Before(calls, i, grace).rows && Before(calls, i, grace).rows[t] == row
    requires row.usedAt.None? && row.revokedAt.None?
    requires forall k :: i <= k < j ==> calls[k].now < row.expiresAt && SparesAt(calls, k, t, grace)
    ensures t in Before(calls, j, grace).rows && Before(calls, j, grace).rows[t] == row
  {
    if i < j {
      SparedTokenStays(calls, i, j - 1, t, row, grace);
      RunIsFresh(calls, j - 1, grace);
      NextStore(calls, j - 1, grace);
      assert SparesAt(calls, j - 1, t, grace);
      hide Before;
      SparedRowStays(Before(calls, j - 1, grace), calls[j - 1], t, grace);
    }
  }

  /** An unused token is still exchangeable at any time before it expires, if every call in between spares it. */
  lemma UnusedTokenStaysGood(calls: seq<Call>, i: nat, j: nat, t: Token, grace: int)
    requires i <= j < |calls| && Forward(calls) && calls[j].event == Exchange(t, true)
    requires t in Before(calls, i, grace).rows
    requires Before(calls, i, grace).rows[t].usedAt.None? && Before(calls, i, grace).rows[t].revokedAt.None?
    requires calls[j].now < Before(calls, i, grace).rows[t].expiresAt
    requires forall k :: i <= k < j ==> SparesAt(calls, k, t, grace)
    ensures Answer(calls, j, grace) == Exchanged(Before(calls, i, grace).rows[t].user, Before(calls, j, grace).nextToken)
  {
    SparedTokenStays(calls, i, j, t, Before(calls, i, grace).rows[t], grace);
  }
}
