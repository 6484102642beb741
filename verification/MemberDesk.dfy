/**
 The club's front desk: walk-in signup, club members with a permanent username,
 their daily check-in, removal and revocation. Calls are atomic and every call
 is given the club's date. A walk-in's username arrives trimmed and lower-cased;
 a generated password is a parameter.
 */
module MemberDesk {
  import opened Wrappers
  import CourtModel
  import opened PassDesk

  type PassId = CourtModel.PassId

  datatype Member = Member(ref: string, username: string, display: Option<string>, active: bool, added: Date)

  /** club_credentials and club_members; ids are handed out in order. */
  datatype Tables = Tables(passes: map<PassId, Pass>, members: map<MemberId, Member>, nextPass: PassId,
                           nextMember: MemberId)

  datatype Refusal =
    | Invalid | Taken | BadRef | BadDisplayName | UsedByWalkin | RefTaken | NameTaken
    | UnknownMember | PassRevoked | UsernameHeld | RowNotFound

  /** What the check-in station shows. */
  datatype Slip = Slip(member: MemberId, username: string, password: string)

  predicate ValidUsername(username: string) {
    && 3 <= |username| <= 20
    && forall i :: 0 <= i < |username| ==>
         var c := username[i];
         'a' <= c <= 'z' || '0' <= c <= '9' || c == '_' || c == '.' || c == '-'
  }

  // ---- what the statements see ----------------------------------------------

  ghost predicate Holds(s: Tables, p: PassId, username: string, day: Date) {
    p in s.passes && s.passes[p].username == username && s.passes[p].validDate == day
  }

  ghost predicate SlotTaken(s: Tables, username: string, day: Date) {
    exists p: PassId :: Holds(s, p, username, day)
  }

  ghost predicate ActiveNamed(s: Tables, m: MemberId, username: string) {
    m in s.members && s.members[m].active && s.members[m].username == username
  }

  ghost predicate ActiveCard(s: Tables, m: MemberId, ref: string) {
    m in s.members && s.members[m].active && s.members[m].ref == ref
  }

  ghost predicate NameReserved(s: Tables, username: string) {
    exists m: MemberId :: ActiveNamed(s, m, username)
  }

  ghost predicate MembersPass(s: Tables, p: PassId, m: MemberId, day: Date) {
    p in s.passes && s.passes[p].member == Some(m) && s.passes[p].validDate == day
  }

  /** The tables' keys, and that a member's pass bears the member's name. */
  ghost predicate Linked(s: Tables) {
    && OneADay(s.passes)
    && (forall m, n, ref :: ActiveCard(s, m, ref) && ActiveCard(s, n, ref) ==> m == n)
    && (forall m, n, name :: ActiveNamed(s, m, name) && ActiveNamed(s, n, name) ==> m == n)
    && (forall p :: p in s.passes && s.passes[p].member.Some? ==>
          s.passes[p].member.value in s.members
          && s.members[s.passes[p].member.value].username == s.passes[p].username)
    && (forall p :: p in s.passes ==> p < s.nextPass)
    && (forall m :: m in s.members ==> m < s.nextMember)
  }

  // ---- the calls ------------------------------------------------------------

  function WithPass(s: Tables, pass: Pass): Tables {
    s.(passes := s.passes[s.nextPass := pass], nextPass := s.nextPass + 1)
  }

  ghost function Walkin(s: Tables, username: string, secret: string, today: Date): (Tables, Result<string, Refusal>) {
    if !ValidUsername(username) then (s, Err(Invalid))
    else if NameReserved(s, username) || SlotTaken(s, username, today) then (s, Err(Taken))
    else (WithPass(s, Pass(username, secret, true, None, today)), Ok(secret))
  }

  /** A display name is trimmed, and dropped if nothing is left. */
  function Display(typed: Option<string>): Option<string> {
    if typed.None? || Trim(typed.value) == [] then None else Some(Trim(typed.value))
  }

  /** `card`, `name` and `display` as typed; the username is trimmed and lower-cased. */
  ghost function Add(s: Tables, card: string, name: string, display: Option<string>, today: Date)
    : (Tables, Result<MemberId, Refusal>)
  {
    var ref, username, shown := Trim(card), Fold(Trim(name)), Display(display);
    if ref == [] || |ref| > 64 then (s, Err(BadRef))
    else if !ValidUsername(username) then (s, Err(Invalid))
    else if shown.Some? && |shown.value| > 60 then (s, Err(BadDisplayName))
    else if SlotTaken(s, username, today) then (s, Err(UsedByWalkin))
    else if exists m: MemberId :: ActiveCard(s, m, ref) then (s, Err(RefTaken))
    else if NameReserved(s, username) then (s, Err(NameTaken))
    else (WithMember(s, Member(ref, username, shown, true, today)), Ok(s.nextMember))
  }

  function WithMember(s: Tables, member: Member): Tables {
    s.(members := s.members[s.nextMember := member], nextMember := s.nextMember + 1)
  }

  function RevokeWhere(s: Tables, hit: (PassId, Pass) -> bool): Tables {
    s.(passes := map p | p in s.passes :: if hit(p, s.passes[p]) then s.passes[p].(active := false) else s.passes[p])
  }

  /** Soft removal, revoking the member's pass of today. */
  function Remove(s: Tables, m: MemberId, today: Date): (Tables, bool) {
    if m !in s.members || !s.members[m].active then (s, false)
    else
      (RevokeWhere(s.(members := s.members[m := s.members[m].(active := false)]),
                   (p: PassId, pass: Pass) => pass.member == Some(m) && pass.validDate == today),
       true)
  }

  function Revoke(s: Tables, id: PassId): Tables {
    RevokeWhere(s, (p: PassId, pass: Pass) => p == id)
  }

  ghost function CheckIn(s: Tables, ref: string, secret: string, today: Date): (Tables, Result<Slip, Refusal>) {
    if !exists m: MemberId :: ActiveCard(s, m, ref) then (s, Err(UnknownMember))
    else
      var m: MemberId :| ActiveCard(s, m, ref);
      CheckInOf(s, m, secret, today)
  }

  /** Find or create the member's pass of today. */
  ghost function CheckInOf(s: Tables, m: MemberId, secret: string, today: Date): (Tables, Result<Slip, Refusal>)
    requires m in s.members
  {
    var username := s.members[m].username;
    if exists p: PassId :: MembersPass(s, p, m, today) then
      var p: PassId :| MembersPass(s, p, m, today);
      (s, Shown(s, p, m))
    else if SlotTaken(s, username, today) then (s, Err(UsernameHeld))
    else (WithPass(s, Pass(username, secret, true, Some(m), today)), Ok(Slip(m, username, secret)))
  }

  function Shown(s: Tables, p: PassId, m: MemberId): Result<Slip, Refusal>
    requires p in s.passes && m in s.members
  {
    if s.passes[p].active then Ok(Slip(m, s.members[m].username, s.passes[p].password)) else Err(PassRevoked)
  }

  // ---- the keys hold --------------------------------------------------------

  lemma OnePassADay(s: Tables, p: PassId, m: MemberId, day: Date)
    requires Linked(s) && MembersPass(s, p, m, day)
    ensures forall q: PassId :: q in s.passes && s.passes[q].member == Some(m) && s.passes[q].validDate == day ==> q == p
  {
  }

  lemma WithPassStaysLinked(s: Tables, pass: Pass)
    requires Linked(s) && !SlotTaken(s, pass.username, pass.validDate)
    requires pass.member.Some? ==> pass.member.value in s.members && s.members[pass.member.value].username == pass.username
    ensures Linked(WithPass(s, pass))
  {
    var s' := WithPass(s, pass);
    forall p | p in s.passes ensures !SameSlot(s.passes[p], pass) {
      assert !Holds(s, p, pass.username, pass.validDate);
    }
    assert forall m, name :: ActiveNamed(s', m, name) <==> ActiveNamed(s, m, name);
    assert forall m, ref :: ActiveCard(s', m, ref) <==> ActiveCard(s, m, ref);
  }

  lemma WithMemberStaysLinked(s: Tables, member: Member)
    requires Linked(s) && !NameReserved(s, member.username) && !exists m: MemberId :: ActiveCard(s, m, member.ref)
    ensures Linked(WithMember(s, member))
  {
    var s', n := WithMember(s, member), s.nextMember;
    assert forall m, name ::
             ActiveNamed(s', m, name) ==> ActiveNamed(s, m, name) || (m == n && name == member.username);
    assert forall m, card :: ActiveCard(s', m, card) ==> ActiveCard(s, m, card) || (m == n && card == member.ref);
  }

  lemma AddStaysLinked(s: Tables, card: string, name: string, display: Option<string>, today: Date)
    requires Linked(s)
    ensures Linked(Add(s, card, name, display, today).0)
  {
    var s' := Add(s, card, name, display, today).0;
    if s' != s {
      WithMemberStaysLinked(s, s'.members[s.nextMember]);
    }
  }

  lemma RevokeStaysLinked(s: Tables, hit: (PassId, Pass) -> bool)
    requires Linked(s)
    ensures Linked(RevokeWhere(s, hit))
  {
    var s' := RevokeWhere(s, hit);
    assert forall m, name :: ActiveNamed(s', m, name) <==> ActiveNamed(s, m, name);
    assert forall m, card :: ActiveCard(s', m, card) <==> ActiveCard(s, m, card);
  }

  lemma RemoveStaysLinked(s: Tables, m: MemberId, today: Date)
    requires Linked(s)
    ensures Linked(Remove(s, m, today).0)
  {
    if m in s.members && s.members[m].active {
      var s' := s.(members := s.members[m := s.members[m].(active := false)]);
      assert forall n, name :: ActiveNamed(s', n, name) ==> ActiveNamed(s, n, name);
      assert forall n, card :: ActiveCard(s', n, card) ==> ActiveCard(s, n, card);
      RevokeStaysLinked(s', (p: PassId, pass: Pass) => pass.member == Some(m) && pass.validDate == today);
    }
  }

  // ---- the desk, statement by statement -------------------------------------

  class Desk {
    var passes: map<PassId, Pass>
    var members: map<MemberId, Member>
    var nextPass: PassId
    var nextMember: MemberId

    function Contents(): Tables
      reads this
    {
      Tables(passes, members, nextPass, nextMember)
    }

    ghost predicate Valid()
      reads this
    {
      Linked(Contents())
    }

    constructor ()
      ensures Valid() && Contents() == Tables(map[], map[], 0, 0)
    {
      passes, members, nextPass, nextMember := map[], map[], 0, 0;
    }

    // ---- lookups ------------------------------------------------------------

    method FindSlot(username: string, day: Date) returns (p: Option<PassId>)
      ensures p.Some? ==> Holds(Contents(), p.value, username, day)
      ensures p.None? ==> !SlotTaken(Contents(), username, day)
    {
      var rows := set q: PassId | q in passes && passes[q].username == username && passes[q].validDate == day;
      assert forall q: PassId :: Holds(Contents(), q, username, day) <==> q in rows;
      if rows == {} {
        return None;
      }
      var q :| q in rows;
      p := Some(q);
    }

    method FindName(username: string) returns (m: Option<MemberId>)
      ensures m.Some? ==> ActiveNamed(Contents(), m.value, username)
      ensures m.None? ==> !NameReserved(Contents(), username)
    {
      var rows := set n: MemberId | n in members && members[n].active && members[n].username == username;
      assert forall n: MemberId :: ActiveNamed(Contents(), n, username) <==> n in rows;
      if rows == {} {
        return None;
      }
      var n :| n in rows;
      m := Some(n);
    }

    method FindCard(ref: string) returns (m: Option<MemberId>)
      ensures m.Some? ==> ActiveCard(Contents(), m.value, ref)
      ensures m.None? ==> forall n: MemberId :: !ActiveCard(Contents(), n, ref)
    {
      var rows := set n: MemberId | n in members && members[n].active && members[n].ref == ref;
      assert forall n: MemberId :: ActiveCard(Contents(), n, ref) <==> n in rows;
      if rows == {} {
        return None;
      }
      var n :| n in rows;
      m := Some(n);
    }

    method FindPass(m: MemberId, day: Date) returns (p: Option<PassId>)
      ensures p.Some? ==> MembersPass(Contents(), p.value, m, day)
      ensures p.None? ==> forall q: PassId :: !MembersPass(Contents(), q, m, day)
    {
      var rows := set q: PassId | q in passes && passes[q].member == Some(m) && passes[q].validDate == day;
      assert forall q: PassId :: MembersPass(Contents(), q, m, day) <==> q in rows;
      if rows == {} {
        return None;
      }
      var q :| q in rows;
      p := Some(q);
    }

    /** INSERT INTO club_credentials; false is a unique violation. */
    method InsertPass(pass: Pass) returns (ok: bool)
      requires Valid()
      requires pass.member.Some? ==>
                 pass.member.value in members && members[pass.member.value].username == pass.username
      modifies this
      ensures Valid() && ok == !SlotTaken(old(Contents()), pass.username, pass.validDate)
      ensures Contents() == if ok then WithPass(old(Contents()), pass) else old(Contents())
    {
      hide Linked;
      var holder := FindSlot(pass.username, pass.validDate);
      if holder.Some? {
        return false;
      }
      WithPassStaysLinked(Contents(), pass);
      passes, nextPass := passes[nextPass := pass], nextPass + 1;
      ok := true;
    }

    // ---- stations and admin -------------------------------------------------

    method WalkinCreate(username: string, secret: string, today: Date) returns (r: Result<string, Refusal>)
      requires Valid()
      modifies this
      ensures Valid() && (Contents(), r) == Walkin(old(Contents()), username, secret, today)
    {
      hide Linked;
      if !ValidUsername(username) {
        return Err(Invalid);
      }
      var owner := FindName(username);
      if owner.Some? {
        return Err(Taken);
      }
      var inserted := InsertPass(Pass(username, secret, true, None, today));
      r := if inserted then Ok(secret) else Err(Taken);
    }

    method AddMember(card: string, name: string, display: Option<string>, today: Date)
      returns (r: Result<MemberId, Refusal>)
      requires Valid()
      modifies this
      ensures Valid() && (Contents(), r) == Add(old(Contents()), card, name, display, today)
    {
      hide Linked;
      var ref := Trim(card);
      if ref == [] || |ref| > 64 {
        return Err(BadRef);
      }
      var username := Fold(Trim(name));
      if !ValidUsername(username) {
        return Err(Invalid);
      }
      var shown := Display(display);
      if shown.Some? && |shown.value| > 60 {
        return Err(BadDisplayName);
      }
      var holder := FindSlot(username, today);
      if holder.Some? {
        return Err(UsedByWalkin);
      }
      var carded := FindCard(ref);
      if carded.Some? {
        return Err(RefTaken);
      }
      var named := FindName(username);
      if named.Some? {
        return Err(NameTaken);
      }
      var member := Member(ref, username, shown, true, today);
      WithMemberStaysLinked(Contents(), member);
      r := Ok(nextMember);
      members, nextMember := members[nextMember := member], nextMember + 1;
    }

    method RemoveMember(m: MemberId, today: Date) returns (found: bool)
      requires Valid()
      modifies this
      ensures Valid() && (Contents(), found) == Remove(old(Contents()), m, today)
    {
      hide Linked;
      if m !in members || !members[m].active {
        return false;
      }
      ghost var s := Contents();
      RemoveStaysLinked(s, m, today);
      members := members[m := members[m].(active := false)];
      var todays := set p: PassId | p in passes && passes[p].active
                                    && passes[p].member == Some(m) && passes[p].validDate == today;
      assert forall p: PassId :: p in todays <==> MembersPass(s, p, m, today) && passes[p].active;
      if todays != {} {
        var p :| p in todays;
        OnePassADay(s, p, m, today);
        passes := passes[p := passes[p].(active := false)];
      }
      assert passes == Remove(s, m, today).0.passes;
      found := true;
    }

    method RevokePass(id: PassId) returns (found: bool)
      requires Valid()
      modifies this
      ensures Valid() && Contents() == Revoke(old(Contents()), id) && found == (id in old(passes))
    {
      ghost var s := Contents();
      found := id in passes;
      if found {
        passes := passes[id := passes[id].(active := false)];
      }
      assert passes == Revoke(s, id).passes;
      RevokeStaysLinked(s, (p: PassId, pass: Pass) => p == id);
    }

    /** Find or create today's pass, with one retry. */
    method MemberCheckin(ref: string, secret: string, today: Date) returns (r: Result<Slip, Refusal>)
      requires Valid()
      modifies this
      ensures Valid() && (Contents(), r) == CheckIn(old(Contents()), ref, secret, today)
      ensures r != Err(RowNotFound)
    {
      hide Linked;
      ghost var s := Contents();
      var found := FindCard(ref);
      if found.None? {
        return Err(UnknownMember);
      }
      var m := found.value;
      CheckInIsOf(s, ref, secret, today, m);
      var username := members[m].username;
      for attempt := 0 to 2
        invariant Valid() && members == s.members && attempt < 2
        invariant attempt == 0 ==> Contents() == s
        invariant attempt > 0 ==> Missing(s, m, today) && Contents() == WithPass(s, Pass(username, secret, true, Some(m), today))
      {
        var existing := FindPass(m, today);
        if existing.Some? {
          var p := existing.value;
          ExistingPassShown(s, Contents(), p, m, secret, today);
          if !passes[p].active {
            return Err(PassRevoked);
          }
          return Ok(Slip(m, username, passes[p].password));
        }
        assert attempt == 0 by {
          assert attempt > 0 ==> MembersPass(Contents(), s.nextPass, m, today);
        }
        var inserted := InsertPass(Pass(username, secret, true, Some(m), today));
        if inserted {
          continue;
        }
        // Some pass holds the slot; it is not this member's, or the select would have found it.
        var holder := FindSlot(username, today);
        if holder.Some? {
          assert !MembersPass(s, holder.value, m, today);
          if passes[holder.value].member == Some(m) {
            continue;
          }
          return Err(UsernameHeld);
        }
      }
      r := Err(RowNotFound);
    }
  }

  /** Neither the member's pass of the day nor its slot exists yet. */
  ghost predicate Missing(s: Tables, m: MemberId, today: Date) {
    m in s.members && (forall p: PassId :: !MembersPass(s, p, m, today)) && !SlotTaken(s, s.members[m].username, today)
  }

  lemma CheckInIsOf(s: Tables, ref: string, secret: string, today: Date, m: MemberId)
    requires Linked(s) && ActiveCard(s, m, ref)
    ensures CheckIn(s, ref, secret, today) == CheckInOf(s, m, secret, today)
  {
    assert forall n: MemberId :: ActiveCard(s, n, ref) ==> n == m;
  }

  /** A pass the select finds, before or after the insert, is the one the check-in shows. */
  lemma ExistingPassShown(s: Tables, s': Tables, p: PassId, m: MemberId, secret: string, today: Date)
    requires Linked(s) && Linked(s') && m in s.members && MembersPass(s', p, m, today)
    requires s' == s || (Missing(s, m, today)
                         && s' == WithPass(s, Pass(s.members[m].username, secret, true, Some(m), today)))
    ensures CheckInOf(s, m, secret, today) == (s', Shown(s', p, m))
  {
    OnePassADay(s', p, m, today);
    if s' != s {
      assert MembersPass(s', s.nextPass, m, today);
    }
  }

  // ---- runs -----------------------------------------------------------------

  datatype Event =
    | SignUp(username: string)
    | AddMember(card: string, name: string, display: Option<string>)
    | RemoveMember(m: MemberId)
    | RevokePass(p: PassId)
    | Scan(ref: string)

  /** One call: the date it sees and the password it would generate. */
  datatype Call = Call(today: Date, secret: string, event: Event)

  ghost function After(s: Tables, call: Call): Tables {
    match call.event
    case SignUp(username) => Walkin(s, username, call.secret, call.today).0
    case AddMember(card, name, display) => Add(s, card, name, display, call.today).0
    case RemoveMember(m) => Remove(s, m, call.today).0
    case RevokePass(p) => Revoke(s, p)
    case Scan(ref) => CheckIn(s, ref, call.secret, call.today).0
  }

  /** The tables call i of a run meets. */
  ghost function Before(calls: seq<Call>, i: nat): Tables
    requires i <= |calls|
  {
    if i == 0 then Tables(map[], map[], 0, 0) else After(Before(calls, i - 1), calls[i - 1])
  }

  ghost function Answer(calls: seq<Call>, i: nat): Result<Slip, Refusal>
    requires i < |calls| && calls[i].event.Scan?
  {
    CheckIn(Before(calls, i), calls[i].event.ref, calls[i].secret, calls[i].today).1
  }

  /** Dates never go back. */
  ghost predicate Forward(calls: seq<Call>) {
    forall i, j :: 0 <= i < j < |calls| ==> calls[i].today <= calls[j].today
  }

  /** The pass does not take an active member's name on or after the day the member was added. */
  ghost predicate LeavesNameAlone(s: Tables, p: PassId, m: MemberId) {
    p in s.passes && m in s.members && s.members[m].active && s.passes[p].username == s.members[m].username
    && s.passes[p].validDate >= s.members[m].added
    ==> s.passes[p].member == Some(m)
  }

  ghost predicate Reserved(s: Tables, today: Date) {
    && Linked(s)
    && (forall p :: p in s.passes ==> s.passes[p].validDate <= today)
    && (forall m :: m in s.members ==> s.members[m].added <= today)
    && (forall p, m :: LeavesNameAlone(s, p, m))
  }

  lemma WalkinKeepsReserved(s: Tables, username: string, secret: string, today: Date)
    requires Reserved(s, today)
    ensures Reserved(Walkin(s, username, secret, today).0, today)
  {
    var s' := Walkin(s, username, secret, today).0;
    if s' != s {
      WithPassStaysLinked(s, s'.passes[s.nextPass]);
      forall p, m ensures LeavesNameAlone(s', p, m) {
        assert LeavesNameAlone(s, p, m);
        assert !ActiveNamed(s, m, username);
      }
      hide Linked;
    }
  }

  lemma AddKeepsReserved(s: Tables, card: string, name: string, display: Option<string>, today: Date)
    requires Reserved(s, today)
    ensures Reserved(Add(s, card, name, display, today).0, today)
  {
    var s' := Add(s, card, name, display, today).0;
    AddStaysLinked(s, card, name, display, today);
    if s' != s {
      forall p, m ensures LeavesNameAlone(s', p, m) {
        assert LeavesNameAlone(s, p, m);
        assert !Holds(s, p, Fold(Trim(name)), today);
      }
      hide Linked;
    }
  }

  lemma RemoveKeepsReserved(s: Tables, m: MemberId, today: Date)
    requires Reserved(s, today)
    ensures Reserved(Remove(s, m, today).0, today)
  {
    var s' := Remove(s, m, today).0;
    RemoveStaysLinked(s, m, today);
    forall p, n ensures LeavesNameAlone(s', p, n) {
      assert LeavesNameAlone(s, p, n);
    }
    hide Linked;
  }

  lemma RevokeKeepsReserved(s: Tables, id: PassId, today: Date)
    requires Reserved(s, today)
    ensures Reserved(Revoke(s, id), today)
  {
    RevokeStaysLinked(s, (p: PassId, pass: Pass) => p == id);
    forall p, n ensures LeavesNameAlone(Revoke(s, id), p, n) {
      assert LeavesNameAlone(s, p, n);
    }
    hide Linked;
  }

  lemma CheckInKeepsReserved(s: Tables, ref: string, secret: string, today: Date)
    requires Reserved(s, today)
    ensures Reserved(CheckIn(s, ref, secret, today).0, today)
    ensures CheckIn(s, ref, secret, today).1 != Err(UsernameHeld)
  {
    var s' := CheckIn(s, ref, secret, today).0;
    if m: MemberId :| ActiveCard(s, m, ref) {
      var username := s.members[m].username;
      if p: PassId :| Holds(s, p, username, today) {
        assert LeavesNameAlone(s, p, m);
        assert MembersPass(s, p, m, today);
      } else if s' != s {
        WithPassStaysLinked(s, s'.passes[s.nextPass]);
        forall p, n ensures LeavesNameAlone(s', p, n) {
          assert LeavesNameAlone(s, p, n);
          assert ActiveNamed(s, m, username);
          assert ActiveNamed(s, n, username) ==> n == m;
        }
        hide CheckIn;
      }
    }
  }

  lemma CallKeepsReserved(s: Tables, call: Call)
    requires Reserved(s, call.today)
    ensures Reserved(After(s, call), call.today)
  {
    match call.event
    case SignUp(username) => WalkinKeepsReserved(s, username, call.secret, call.today);
    case AddMember(card, name, display) => AddKeepsReserved(s, card, name, display, call.today);
    case RemoveMember(m) => RemoveKeepsReserved(s, m, call.today);
    case RevokePass(p) => RevokeKeepsReserved(s, p, call.today);
    case Scan(ref) => CheckInKeepsReserved(s, ref, call.secret, call.today);
  }

  /**
   No run lets anyone else's pass, dated on or after the day an active member
   was added, bear that member's name.
   */
  lemma {:induction false} NamesStayReserved(calls: seq<Call>, i: nat, today: Date)
    requires i <= |calls| && Forward(calls)
    requires forall k :: 0 <= k < i ==> calls[k].today <= today
    ensures Reserved(Before(calls, i), today)
  {
    if i > 0 {
      NamesStayReserved(calls, i - 1, calls[i - 1].today);
      CallKeepsReserved(Before(calls, i - 1), calls[i - 1]);
    }
  }

  /** A check-in is never turned away because someone else holds the member's name. */
  lemma CheckInNeverUsernameHeld(calls: seq<Call>, i: nat)
    requires i < |calls| && Forward(calls) && calls[i].event.Scan?
    ensures Answer(calls, i) != Err(UsernameHeld)
  {
    NamesStayReserved(calls, i, calls[i].today);
    CheckInKeepsReserved(Before(calls, i), calls[i].event.ref, calls[i].secret, calls[i].today);
  }

  // ---- one pass, one password a day -----------------------------------------

  /** The member's pass of the day, once issued. */
  ghost predicate Issued(s: Tables, p: PassId, m: MemberId, day: Date, password: string) {
    MembersPass(s, p, m, day) && s.passes[p].password == password && m in s.members
  }

  lemma CallKeepsPass(s: Tables, call: Call, p: PassId, m: MemberId, day: Date, password: string)
    requires Linked(s) && Issued(s, p, m, day, password)
    ensures Issued(After(s, call), p, m, day, password)
    ensures After(s, call).members[m].username == s.members[m].username
  {
  }

  lemma {:induction false} PassStays(calls: seq<Call>, i: nat, j: nat, p: PassId, m: MemberId, day: Date,
                                     password: string)
    requires i <= j <= |calls| && Forward(calls) && Issued(Before(calls, i), p, m, day, password)
    ensures Issued(Before(calls, j), p, m, day, password)
    ensures Before(calls, j).members[m].username == Before(calls, i).members[m].username
  {
    if i < j {
      PassStays(calls, i, j - 1, p, m, day, password);
      NamesStayReserved(calls, j - 1, calls[j - 1].today);
      CallKeepsPass(Before(calls, j - 1), calls[j - 1], p, m, day, password);
    }
  }

  /** A successful check-in leaves today's pass issued with the password it showed. */
  lemma CheckInIssues(s: Tables, ref: string, secret: string, today: Date)
    requires Linked(s) && CheckIn(s, ref, secret, today).1.Ok?
    ensures var s', slip := CheckIn(s, ref, secret, today).0, CheckIn(s, ref, secret, today).1.value;
            && slip.member in s.members && slip.username == s.members[slip.member].username
            && exists p: PassId :: Issued(s', p, slip.member, today, slip.password)
  {
    var s', slip := CheckIn(s, ref, secret, today).0, CheckIn(s, ref, secret, today).1.value;
    if p: PassId :| MembersPass(s, p, slip.member, today) {
      assert Issued(s', p, slip.member, today, slip.password);
    } else {
      assert Issued(s', s.nextPass, slip.member, today, slip.password);
    }
  }

  /** All check-ins of one member on one day show the same name and password. */
  lemma SamePasswordAllDay(calls: seq<Call>, i: nat, j: nat)
    requires i < j < |calls| && Forward(calls)
    requires calls[i].event.Scan? && calls[j].event.Scan? && calls[i].today == calls[j].today
    requires Answer(calls, i).Ok? && Answer(calls, j).Ok? && Answer(calls, i).value.member == Answer(calls, j).value.member
    ensures Answer(calls, i) == Answer(calls, j)
  {
    var s, t, today, slip := Before(calls, i), Before(calls, j), calls[i].today, Answer(calls, i).value;
    NamesStayReserved(calls, i, today);
    NamesStayReserved(calls, i + 1, today);
    NamesStayReserved(calls, j, today);
    CheckInIssues(s, calls[i].event.ref, calls[i].secret, today);
    CheckInKeepsMembers(s, calls[i].event.ref, calls[i].secret, today);
    var p: PassId :| Issued(Before(calls, i + 1), p, slip.member, today, slip.password);
    PassStays(calls, i + 1, j, p, slip.member, today, slip.password);
    RepeatedCheckIn(t, p, calls[j].event.ref, calls[j].secret, today, slip.password);
    hide Linked, Issued, CheckIn, Before;
  }

  lemma CheckInKeepsMembers(s: Tables, ref: string, secret: string, today: Date)
    ensures CheckIn(s, ref, secret, today).0.members == s.members
  {
  }

  /** A check-in whose pass is already issued shows that pass. */
  lemma RepeatedCheckIn(s: Tables, p: PassId, ref: string, secret: string, today: Date, password: string)
    requires Linked(s) && CheckIn(s, ref, secret, today).1.Ok?
    requires Issued(s, p, CheckIn(s, ref, secret, today).1.value.member, today, password)
    ensures var slip := CheckIn(s, ref, secret, today).1.value;
            slip == Slip(slip.member, s.members[slip.member].username, password)
  {
  }

  // ---- a slip opens a court -------------------------------------------------

  lemma {:induction false} ValidNameIsTrimmed(username: string)
    requires ValidUsername(username)
    ensures Trim(username) == username
  {
  }

  /** The station's probe: why a walk-in name is not available today. */
  ghost function UnavailableReason(s: Tables, username: string, today: Date): Option<Refusal> {
    if !ValidUsername(username) then Some(Invalid)
    else if SlotTaken(s, username, today) then Some(Taken)
    else if NameReserved(s, username) then Some(Taken)
    else None
  }

  /**
   The probe is exact, and a claimed name plays at once: the slip just handed
   out resolves for play, for today, against the tables it left behind.
   */
  lemma WalkinOpensCourt(s: Tables, username: string, secret: string, today: Date)
    requires Reserved(s, today)
    ensures var (s', r) := Walkin(s, username, secret, today);
            && (r.Ok? <==> UnavailableReason(s, username, today).None?)
            && (r.Ok? && Trim(secret) == secret ==> Verdict(s'.passes, [PlayerCred(username, secret)], 0, today, Play).Ok?)
  {
    var s' := Walkin(s, username, secret, today).0;
    if UnavailableReason(s, username, today).None? && Trim(secret) == secret {
      WalkinKeepsReserved(s, username, secret, today);
      ValidNameIsTrimmed(username);
      var player := PlayerCred(username, secret);
      assert Opens(s'.passes[s.nextPass], player, today);
      PlayNeedsTodaysPass(s'.passes, [player], 0, today);
    }
  }
}
