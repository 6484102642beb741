/**
 Credential resolution: a kiosk submits usernames and passwords, and every
 action that carries them resolves them to passes first, collecting every
 failure in order.
 */
module PassDesk {
  import opened Wrappers
  import opened CourtModel

  type Date = int
  type MemberId = nat

  /** One day pass; `member` is None for a walk-in. */
  datatype Pass = Pass(username: string, password: string, active: bool, member: Option<MemberId>, validDate: Date)

  datatype PlayerCred = PlayerCred(username: string, password: string)

  datatype Mode = Play | Leave

  predicate Usable(pass: Pass, today: Date) {
    pass.active && pass.validDate == today
  }

  predicate SameSlot(a: Pass, b: Pass) {
    a.username == b.username && a.validDate == b.validDate
  }

  /** The table's unique key: a username names at most one pass a day. */
  ghost predicate OneADay(passes: map<PassId, Pass>) {
    forall p, q :: p in passes && q in passes && SameSlot(passes[p], passes[q]) ==> p == q
  }

  // ---- typed names ----------------------------------------------------------

  predicate Blank(c: char) {
    var n := c as int;
    || 0x09 <= n <= 0x0D || n == 0x20 || n == 0x85 || n == 0xA0 || n == 0x1680 || 0x2000 <= n <= 0x200A
    || n == 0x2028 || n == 0x2029 || n == 0x202F || n == 0x205F || n == 0x3000
  }

  function Trim(s: string): string {
    if s == [] then s
    else if Blank(s[0]) then Trim(s[1..])
    else if Blank(s[|s| - 1]) then Trim(s[..|s| - 1])
    else s
  }

  function Lower(c: char): char {
    if 'A' <= c <= 'Z' then (c as int + 32) as char else c
  }

  /** ASCII case folding. */
  function Fold(s: string): string {
    seq(|s|, i requires 0 <= i < |s| => Lower(s[i]))
  }

  /** Trimming removes exactly the blanks at both ends. */
  lemma {:induction false} TrimStripsBlanks(s: string)
    ensures exists i, j :: Trimmed(s, i, j) && Trim(s) == s[i..j]
  {
    if s == [] {
      assert Trimmed(s, 0, 0);
    } else if Blank(s[0]) {
      TrimStripsBlanks(s[1..]);
      var i, j :| Trimmed(s[1..], i, j) && Trim(s[1..]) == s[1..][i..j];
      assert s[1..][i..j] == s[i + 1..j + 1];
      assert forall k :: 1 <= k < |s| ==> s[1..][k - 1] == s[k];
      assert Trimmed(s, i + 1, j + 1);
    } else if Blank(s[|s| - 1]) {
      var init := s[..|s| - 1];
      TrimStripsBlanks(init);
      var i, j :| Trimmed(init, i, j) && Trim(init) == init[i..j];
      assert Trimmed(s, i, j) && init[i..j] == s[i..j];
    } else {
      assert Trimmed(s, 0, |s|) && s[0..|s|] == s;
    }
  }

  /** Everything outside i..j is blank, and the ends inside are not. */
  ghost predicate Trimmed(s: string, i: int, j: int) {
    && 0 <= i <= j <= |s|
    && (forall k :: 0 <= k < i ==> Blank(s[k])) && (forall k :: j <= k < |s| ==> Blank(s[k]))
    && (i < j ==> !Blank(s[i]) && !Blank(s[j - 1]))
  }

  /** The same letter, one of them a capital. */
  predicate CapitalOf(c: char, d: char) {
    'A' <= c <= 'Z' && d as int == c as int - 'A' as int + 'a' as int
  }

  /** Folding identifies exactly the names that differ in ASCII case only. */
  lemma FoldIgnoresCase(s: string, t: string)
    ensures Fold(s) == Fold(t) <==>
              |s| == |t| && forall i :: 0 <= i < |s| ==> s[i] == t[i] || CapitalOf(s[i], t[i]) || CapitalOf(t[i], s[i])
  {
    if Fold(s) == Fold(t) {
      assert forall i :: 0 <= i < |s| ==> Fold(s)[i] == Lower(s[i]) && Fold(t)[i] == Lower(t[i]);
    }
  }

  // ---- what becomes of one submitted player ---------------------------------

  ghost predicate IsNewest(passes: map<PassId, Pass>, username: string, id: PassId) {
    && id in passes && passes[id].username == username
    && forall p :: p in passes && passes[p].username == username ==> passes[p].validDate <= passes[id].validDate
  }

  ghost predicate Repeats(players: seq<PlayerCred>, i: nat)
    requires i < |players|
  {
    exists j :: 0 <= j < i && Fold(Trim(players[j].username)) == Fold(Trim(players[i].username))
  }

  /** The newest pass of the name, if the password and the rules of the mode admit it. */
  ghost function LookUp(passes: map<PassId, Pass>, username: string, password: string, today: Date, mode: Mode)
    : Result<Holder, CredCode>
  {
    if !exists id: PassId :: IsNewest(passes, username, id) then Err(NotFound)
    else
      var id: PassId :| IsNewest(passes, username, id);
      if !passes[id].active then Err(Revoked)
      else if passes[id].validDate != today && mode == Play then Err(Expired)
      else if passes[id].password != password then Err(BadPassword)
      else Ok(Holder(username, id))
  }

  /** Player i's pass, or why it is refused. */
  ghost function Verdict(passes: map<PassId, Pass>, players: seq<PlayerCred>, i: nat, today: Date, mode: Mode)
    : Result<Holder, CredCode>
    requires i < |players|
  {
    if Repeats(players, i) then Err(Duplicate)
    else LookUp(passes, Trim(players[i].username), Trim(players[i].password), today, mode)
  }

  ghost function Accepted(passes: map<PassId, Pass>, players: seq<PlayerCred>, n: nat, today: Date,
                          mode: Mode): seq<Holder>
    requires n <= |players|
  {
    if n == 0 then []
    else
      Accepted(passes, players, n - 1, today, mode)
      + match Verdict(passes, players, n - 1, today, mode) case Ok(h) => [h] case Err(_) => []
  }

  ghost function Failed(passes: map<PassId, Pass>, players: seq<PlayerCred>, n: nat, today: Date,
                        mode: Mode): seq<CredError>
    requires n <= |players|
  {
    if n == 0 then []
    else
      Failed(passes, players, n - 1, today, mode)
      + match Verdict(passes, players, n - 1, today, mode)
        case Ok(_) => []
        case Err(code) => [CredError(Trim(players[n - 1].username), code, None)]
  }

  lemma OneMorePlayer(passes: map<PassId, Pass>, players: seq<PlayerCred>, i: nat, today: Date, mode: Mode)
    requires i < |players|
    ensures var accepted, failed := Accepted(passes, players, i, today, mode), Failed(passes, players, i, today, mode);
            match Verdict(passes, players, i, today, mode)
            case Ok(h) =>
              && Accepted(passes, players, i + 1, today, mode) == accepted + [h]
              && Failed(passes, players, i + 1, today, mode) == failed
            case Err(code) =>
              && Accepted(passes, players, i + 1, today, mode) == accepted
              && Failed(passes, players, i + 1, today, mode) == failed + [CredError(Trim(players[i].username), code, None)]
  {
  }

  ghost function FoldedNames(players: seq<PlayerCred>, n: nat): set<string>
    requires n <= |players|
  {
    set i | 0 <= i < n :: Fold(Trim(players[i].username))
  }

  ghost function Folded(names: seq<string>): set<string> {
    set s | s in names :: Fold(s)
  }

  /** The names seen so far decide whether the next one repeats. */
  lemma SeenDecidesRepeat(seen: seq<string>, players: seq<PlayerCred>, i: nat)
    requires i < |players| && Folded(seen) == FoldedNames(players, i)
    ensures var username := Trim(players[i].username);
            && (Repeats(players, i) <==> exists s :: s in seen && Fold(s) == Fold(username))
            && (Repeats(players, i) ==> FoldedNames(players, i + 1) == Folded(seen))
            && FoldedNames(players, i + 1) == Folded(seen + [username])
  {
    var username := Trim(players[i].username);
    assert Repeats(players, i) <==> Fold(username) in FoldedNames(players, i);
    assert (exists s :: s in seen && Fold(s) == Fold(username)) <==> Fold(username) in Folded(seen);
    assert FoldedNames(players, i + 1) == FoldedNames(players, i) + {Fold(username)};
    assert Folded(seen + [username]) == Folded(seen) + {Fold(username)};
  }

  // ---- the resolution loop --------------------------------------------------

  /** ORDER BY valid_date DESC LIMIT 1. */
  method SelectNewest(passes: map<PassId, Pass>, username: string) returns (id: Option<PassId>)
    ensures id.Some? ==> IsNewest(passes, username, id.value)
    ensures id.None? ==> forall p :: p in passes ==> passes[p].username != username
  {
    var rows := set p: PassId | p in passes && passes[p].username == username;
    if rows == {} {
      assert forall p: PassId :: p in passes && passes[p].username == username ==> p in rows;
      return None;
    }
    var best :| best in rows;
    var left := rows - {best};
    while left != {}
      invariant best in rows && left <= rows
      invariant forall p :: p in rows - left ==> passes[p].validDate <= passes[best].validDate
      decreases |left|
    {
      var p :| p in left;
      if passes[p].validDate > passes[best].validDate {
        best := p;
      }
      left := left - {p};
    }
    id := Some(best);
  }

  method ResolvePlayers(passes: map<PassId, Pass>, players: seq<PlayerCred>, today: Date, mode: Mode)
    returns (resolved: seq<Holder>, errors: seq<CredError>)
    requires OneADay(passes)
    ensures resolved == Accepted(passes, players, |players|, today, mode)
    ensures errors == Failed(passes, players, |players|, today, mode)
    ensures Party(resolved, errors).Distinct()
    ensures Party(resolved, errors).Size() == |players|
  {
    resolved, errors := [], [];
    var seen: seq<string> := [];
    for i := 0 to |players|
      invariant resolved == Accepted(passes, players, i, today, mode)
      invariant errors == Failed(passes, players, i, today, mode)
      invariant |resolved| + |errors| == i
      invariant Folded(seen) == FoldedNames(players, i)
    {
      var username := Trim(players[i].username);
      SeenDecidesRepeat(seen, players, i);
      hide Repeats, Folded, FoldedNames, Fold, Trim, LookUp;
      var verdict := Err(Duplicate);
      if forall s :: s in seen ==> Fold(s) != Fold(username) {
        seen := seen + [username];
        verdict := ResolveOne(passes, username, Trim(players[i].password), today, mode);
      }
      assert verdict == Verdict(passes, players, i, today, mode);
      OneMorePlayer(passes, players, i, today, mode);
      hide Verdict, OneADay, Accepted, Failed;
      match verdict
      case Ok(holder) => resolved := resolved + [holder];
      case Err(code) => errors := errors + [CredError(username, code, None)];
    }
    AcceptedAreDistinct(passes, players, |players|, today, mode);
  }

  /** Existence, day validity and password of one name not mentioned before. */
  method ResolveOne(passes: map<PassId, Pass>, username: string, password: string, today: Date, mode: Mode)
    returns (r: Result<Holder, CredCode>)
    requires OneADay(passes)
    ensures r == LookUp(passes, username, password, today, mode)
  {
    var row := SelectNewest(passes, username);
    if row.None? {
      return Err(NotFound);
    }
    var id := row.value;
    assert forall p: PassId :: IsNewest(passes, username, p) ==> p == id;
    if !Usable(passes[id], today) {
      if !passes[id].active {
        return Err(Revoked);
      }
      if mode == Play {
        return Err(Expired);
      }
    }
    if passes[id].password != password {
      return Err(BadPassword);
    }
    r := Ok(Holder(username, id));
  }

  ghost predicate AcceptedFrom(passes: map<PassId, Pass>, players: seq<PlayerCred>, n: nat, today: Date, mode: Mode,
                               h: Holder)
    requires n <= |players|
  {
    exists i: nat :: i < n && Verdict(passes, players, i, today, mode) == Ok(h)
  }

  lemma LaterPassDiffers(passes: map<PassId, Pass>, players: seq<PlayerCred>, n: nat, today: Date, mode: Mode,
                         h: Holder)
    requires n < |players| && AcceptedFrom(passes, players, n, today, mode, h)
    requires Verdict(passes, players, n, today, mode).Ok?
    ensures h.pass != Verdict(passes, players, n, today, mode).value.pass
  {
  }

  lemma {:induction false} AcceptedHaveSource(passes: map<PassId, Pass>, players: seq<PlayerCred>, n: nat,
                                              today: Date, mode: Mode, h: Holder)
    requires n <= |players| && h in Accepted(passes, players, n, today, mode)
    ensures AcceptedFrom(passes, players, n, today, mode, h)
  {
    hide Verdict;
    if h in Accepted(passes, players, n - 1, today, mode) {
      AcceptedHaveSource(passes, players, n - 1, today, mode, h);
      var i: nat :| i < n - 1 && Verdict(passes, players, i, today, mode) == Ok(h);
    } else {
      assert Verdict(passes, players, n - 1, today, mode) == Ok(h);
    }
  }

  /** Accepted passes come from distinct submitted names, so no pass is listed twice. */
  lemma {:induction false} AcceptedAreDistinct(passes: map<PassId, Pass>, players: seq<PlayerCred>, n: nat,
                                               today: Date, mode: Mode)
    requires n <= |players|
    ensures Party(Accepted(passes, players, n, today, mode), []).Distinct()
  {
    if n > 0 {
      hide Verdict, AcceptedFrom;
      AcceptedAreDistinct(passes, players, n - 1, today, mode);
      var hs, last := Accepted(passes, players, n - 1, today, mode), Verdict(passes, players, n - 1, today, mode);
      if last.Ok? {
        forall h | h in hs ensures h.pass != last.value.pass {
          AcceptedHaveSource(passes, players, n - 1, today, mode, h);
          LaterPassDiffers(passes, players, n - 1, today, mode, h);
        }
        assert Accepted(passes, players, n, today, mode) == hs + [last.value];
        assert Party(hs + [last.value], []).Distinct();
      } else {
        assert Accepted(passes, players, n, today, mode) == hs;
      }
    }
  }

  predicate Opens(pass: Pass, player: PlayerCred, today: Date) {
    Usable(pass, today) && pass.username == Trim(player.username) && pass.password == Trim(player.password)
  }

  /** For play, a first mention is accepted exactly when some usable pass of today bears its name and password. */
  lemma PlayNeedsTodaysPass(passes: map<PassId, Pass>, players: seq<PlayerCred>, i: nat, today: Date)
    requires OneADay(passes) && i < |players| && !Repeats(players, i)
    requires forall p :: p in passes ==> passes[p].validDate <= today
    ensures Verdict(passes, players, i, today, Play).Ok? <==>
            exists p: PassId :: p in passes && Opens(passes[p], players[i], today)
  {
    var username := Trim(players[i].username);
    if p: PassId :| p in passes && Opens(passes[p], players[i], today) {
      assert IsNewest(passes, username, p);
      assert forall q: PassId :: IsNewest(passes, username, q) ==> q == p;
    }
  }

  lemma {:induction false} NewestOf(passes: map<PassId, Pass>, username: string, rows: set<PassId>) returns (id: PassId)
    requires rows != {} && forall p :: p in rows ==> p in passes && passes[p].username == username
    ensures id in rows && forall p :: p in rows ==> passes[p].validDate <= passes[id].validDate
  {
    id :| id in rows;
    if rows != {id} {
      var other := NewestOf(passes, username, rows - {id});
      if passes[other].validDate > passes[id].validDate {
        id := other;
      }
    }
  }

  /** The name bears a pass, and then exactly one of them is the newest. */
  lemma NewestIsUnique(passes: map<PassId, Pass>, username: string)
    requires OneADay(passes)
    ensures (exists p :: p in passes && passes[p].username == username) <==> exists id: PassId :: IsNewest(passes, username, id)
    ensures forall p: PassId, q: PassId :: IsNewest(passes, username, p) && IsNewest(passes, username, q) ==> p == q
  {
    var rows := set p: PassId | p in passes && passes[p].username == username;
    if rows != {} {
      var id := NewestOf(passes, username, rows);
      assert IsNewest(passes, username, id);
    }
    if p :| p in passes && passes[p].username == username {
      assert p in rows;
    }
  }

  /**
   For leaving, a first mention is accepted exactly when the newest pass of its
   name is unrevoked and bears its password, whatever day it is for.
   */
  lemma LeaveNeedsThePassword(passes: map<PassId, Pass>, players: seq<PlayerCred>, i: nat, today: Date)
    requires OneADay(passes) && i < |players| && !Repeats(players, i)
    ensures var name, password := Trim(players[i].username), Trim(players[i].password);
            && (Verdict(passes, players, i, today, Leave).Ok? <==>
                  exists p: PassId :: IsNewest(passes, name, p) && passes[p].active && passes[p].password == password)
            && (Verdict(passes, players, i, today, Leave).Ok? ==>
                  var h := Verdict(passes, players, i, today, Leave).value;
                  h.username == name && IsNewest(passes, name, h.pass) && passes[h.pass].active
                  && passes[h.pass].password == password)
  {
    NewestIsUnique(passes, Trim(players[i].username));
    hide IsNewest, OneADay, Repeats, Trim;
  }

  /** Which refusal is given, on the table's rows; a pass of another day is refused for play only. */
  lemma RefusalsExplain(passes: map<PassId, Pass>, players: seq<PlayerCred>, i: nat, today: Date, mode: Mode)
    requires OneADay(passes) && i < |players|
    ensures var name, password := Trim(players[i].username), Trim(players[i].password);
            var verdict, first := Verdict(passes, players, i, today, mode), !Repeats(players, i);
            && (verdict == Err(Duplicate) <==> !first)
            && (verdict == Err(NotFound) <==> first && forall p :: p in passes ==> passes[p].username != name)
            && (verdict == Err(Revoked) <==> first && exists p: PassId :: IsNewest(passes, name, p) && !passes[p].active)
            && (verdict == Err(Expired) <==>
                  first && mode == Play
                  && exists p: PassId :: IsNewest(passes, name, p) && passes[p].active && passes[p].validDate != today)
            && (verdict == Err(BadPassword) <==>
                  first && exists p: PassId :: IsNewest(passes, name, p) && passes[p].active
                                               && (mode == Leave || passes[p].validDate == today)
                                               && passes[p].password != password)
  {
    NewestIsUnique(passes, Trim(players[i].username));
    hide IsNewest, OneADay, Repeats, Trim;
  }

  /**
   Whoever could play can still sign off: a pass accepted for play on any
   earlier day is accepted for leaving, until it is revoked or a newer pass of
   its name is issued.
   */
  lemma PlayersCanAlwaysLeave(passes: map<PassId, Pass>, later: map<PassId, Pass>, players: seq<PlayerCred>,
                              i: nat, today: Date, day: Date)
    requires OneADay(passes) && OneADay(later) && i < |players|
    requires Verdict(passes, players, i, today, Play).Ok?
    requires var p := Verdict(passes, players, i, today, Play).value.pass;
             && p in later && later[p] == passes[p]
             && forall q :: q in later && later[q].username == passes[p].username ==> later[q].validDate <= passes[p].validDate
    ensures Verdict(later, players, i, day, Leave) == Verdict(passes, players, i, today, Play)
  {
    var h := Verdict(passes, players, i, today, Play).value;
    assert IsNewest(later, h.username, h.pass);
    assert forall q: PassId :: IsNewest(later, h.username, q) ==> q == h.pass;
  }
}
