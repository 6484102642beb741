/**
 What each group call changes, exactly: who belongs to what, with which role
 and since when, which group is active, and when a call goes through. Over a
 run, nobody loses a membership but by their own call or an admin's.
 */
module GroupHistory {
  import opened Wrappers
  import opened Groups

  /** An active user calls for their active group, which they belong to. */
  predicate CallsFor(s: State, u: Uid, g: Gid) {
    u in s.users && s.users[u].status == Active && s.users[u].group == Some(g) && IsMember(s, g, u)
  }

  /** Somebody else in the group is an admin. */
  predicate AdminBeside(s: State, g: Gid, u: Uid) {
    g in s.groups && exists v :: v in s.groups[g] && v != u && IsAdmin(s, g, v)
  }

  // ---- when a call goes through ---------------------------------------------

  /** Administering and leaving: by whom, on whom, and never without an admin left. */
  lemma GroupCallsGoThrough(s: State, call: Call)
    requires Sound(s)
    ensures call.SetRole? ==>
              (Next(s, call).1 == Done <==>
                exists g :: CallsFor(s, call.u, g) && IsAdmin(s, g, call.u) && IsMember(s, g, call.member)
                            && (call.role == Plain ==> AdminBeside(s, g, call.member)))
    ensures call.RemoveMember? ==>
              (Next(s, call).1 == Done <==>
                exists g :: CallsFor(s, call.u, g) && IsAdmin(s, g, call.u) && IsMember(s, g, call.member)
                            && call.member != call.u)
    ensures call.Leave? ==>
              (Next(s, call).1 == Done <==>
                exists g :: CallsFor(s, call.u, g)
                            && (s.groups[g].Keys == {call.u} || !IsAdmin(s, g, call.u) || AdminBeside(s, g, call.u)))
  {
    if call.SetRole? || call.RemoveMember? || call.Leave? {
      assert MayCall(s, call.u) && HasActive(s, call.u) ==> CallsFor(s, call.u, s.users[call.u].group.value);
      if g :| CallsFor(s, call.u, g) {
        assert g == s.users[call.u].group.value && HasActive(s, call.u) && MayCall(s, call.u);
        if call.Leave? {
          AloneMeansOne(s.groups[g], call.u);
        }
        assert call.SetRole? ==> (OtherAdmin(s.groups[g], call.member) <==> AdminBeside(s, g, call.member));
        assert call.Leave? ==> (OtherAdmin(s.groups[g], call.u) <==> AdminBeside(s, g, call.u));
      }
      hide Sound, OtherAdmin, AdminBeside;
    }
  }

  /** Coming and going: an active user makes a group while in fewer than 20, joins a group that exists, picks one they are in. */
  lemma ArrivalsGoThrough(s: State, call: Call)
    requires Sound(s) && !call.Register? && !call.SetStatus?
    ensures Next(s, call).1 == Done && !call.DeleteMe? ==> call.u in s.users && s.users[call.u].status == Active
    ensures call.u in s.users && s.users[call.u].status == Active ==>
              && (call.Create? ==>
                    (Next(s, call).1 == Done <==> call.nameOk && |set g | g in s.groups && IsMember(s, g, call.u)| < 20))
              && (call.SetActive? ==> (Next(s, call).1 == Done <==> IsMember(s, call.g, call.u)))
              && (call.AcceptInvite? ==> (Next(s, call).1 == Done <==> call.g in s.groups))
              && (call.JoinLink? ==> (Next(s, call).1 == Done <==> call.g in s.groups && !call.banned))
    ensures call.DeleteMe? ==> (Next(s, call).1 == Done <==> call.u in s.users && s.users[call.u].status != Off)
  {
    assert GroupsOf(s, call.u) == set g | g in s.groups && IsMember(s, g, call.u);
  }

  lemma AloneMeansOne(roster: Roster, u: Uid)
    requires u in roster
    ensures |roster| == 1 <==> roster.Keys == {u}
  {
    if |roster| == 1 {
      assert |roster.Keys - {u}| == 0;
    }
  }

  // ---- what a call changes --------------------------------------------------

  /** The call makes v a member of g. */
  predicate Arrives(s: State, call: Call, g: Gid, v: Uid) {
    match call
    case Create(u, _, _) => g == s.nextGroup && v == u
    case AcceptInvite(u, h, _) => g == h && v == u
    case JoinLink(u, h, _, _) => g == h && v == u
    case _ => false
  }

  /** The call ends v's membership of g. */
  predicate Departs(s: State, call: Call, g: Gid, v: Uid) {
    match call
    case RemoveMember(u, member, _) => u in s.users && s.users[u].group == Some(g) && v == member
    case Leave(u, _) => u in s.users && s.users[u].group == Some(g) && v == u
    case DeleteMe(u, _) => v == u
    case _ => false
  }

  /** A refused call changes nothing; any other moves exactly its own member. */
  lemma MembershipMoves(s: State, call: Call, g: Gid, v: Uid)
    requires Sound(s) && LegalPick(s, call)
    ensures Next(s, call).1 != Done ==> Next(s, call).0 == s
    ensures Next(s, call).1 == Done ==>
              (IsMember(Next(s, call).0, g, v) <==>
                (IsMember(s, g, v) && !Departs(s, call, g, v)) || Arrives(s, call, g, v))
  {
    if call.Leave? && CallsFor(s, call.u, g) {
      AloneMeansOne(s.groups[g], call.u);
    }
    if call.DeleteMe? && call.u in s.users {
      DeletionRemovesRows(s, call.u, call.heirs);
      hide Deleted, LegalPick;
    }
  }

  /** A membership keeps its role and date but where an admin or a succession changes the role; new ones are plain, or the maker's. */
  lemma RolesMove(s: State, call: Call, g: Gid, v: Uid)
    requires Sound(s) && LegalPick(s, call) && IsMember(Next(s, call).0, g, v)
    ensures !IsMember(s, g, v) ==>
              && (call.Create? || call.AcceptInvite? || call.JoinLink?)
              && Next(s, call).0.groups[g][v] == Membership(if call.Create? then Admin else Plain, call.now)
    ensures IsMember(s, g, v) ==>
              var row, done := s.groups[g][v], Next(s, call).1 == Done;
              Next(s, call).0.groups[g][v] ==
              if call.SetRole? && done && s.users[call.u].group == Some(g) && v == call.member then row.(role := call.role)
              else if call.DeleteMe? && done && g in call.heirs && v == call.heirs[g] then row.(role := Admin)
              else row
  {
    MembershipMoves(s, call, g, v);
    if call.DeleteMe? && Next(s, call).1 == Done {
      assert v in s.groups[g] && v != call.u;
      DeletedGroup(s, call.u, call.heirs, g);
      hide Deleted;
    }
  }

  /** Which group is active afterwards: only the caller's and a removed member's choice can change. */
  lemma ActiveMoves(s: State, call: Call, v: Uid)
    requires Sound(s) && LegalPick(s, call) && v in s.users && Next(s, call).1 == Done
    ensures v in Next(s, call).0.users
    ensures Next(s, call).0.users[v].group ==
            match call
            case Create(u, _, _) => if v == u then Some(s.nextGroup) else s.users[v].group
            case SetActive(u, g) => if v == u then Some(g) else s.users[v].group
            case AcceptInvite(u, g, _) => if v == u && s.users[v].group.None? then Some(g) else s.users[v].group
            case JoinLink(u, g, _, _) => if v == u then Some(g) else s.users[v].group
            case RemoveMember(u, member, pick) =>
              if v == member && s.users[v].group == s.users[u].group then pick else s.users[v].group
            case Leave(u, pick) =>
              if v == u then (if s.groups[s.users[u].group.value].Keys == {u} then None else pick) else s.users[v].group
            case DeleteMe(u, _) => if v == u then None else s.users[v].group
            case _ => s.users[v].group
  {
    if call.Leave? {
      var g := s.users[call.u].group.value;
      AloneMeansOne(s.groups[g], call.u);
      if v != call.u && s.users[v].group == Some(g) {
        assert IsMember(s, g, v);
      }
    } else if call.DeleteMe? {
      DeletionKeepsOtherUsers(s, call.u, call.heirs);
      hide Deleted;
    }
  }

  /**
   Whoever leaves, or is removed from, the group they had active while it goes
   on has the group they joined last active instead, and none if they are in no
   other.
   */
  lemma LeaverGoesToLatest(s: State, call: Call, g: Gid, v: Uid)
    requires Sound(s) && LegalPick(s, call) && Next(s, call).1 == Done && (call.Leave? || call.RemoveMember?)
    requires IsMember(s, g, v) && !IsMember(Next(s, call).0, g, v) && g in Next(s, call).0.groups
    requires s.users[v].group == Some(g)
    ensures var active := Next(s, call).0.users[v].group;
            && (active.None? <==> forall h :: IsMember(s, h, v) ==> h == g)
            && (active.Some? ==>
                  IsMember(Next(s, call).0, active.value, v)
                  && forall h :: IsMember(s, h, v) && h != g ==> s.groups[h][v].joined <= s.groups[active.value][v].joined)
  {
    MembershipMoves(s, call, g, v);
    ActiveMoves(s, call, v);
    var pick := call.pick;
    if pick.Some? {
      MembershipMoves(s, call, pick.value, v);
    }
    if call.Leave? {
      AloneMeansOne(s.groups[g], v);
    }
    hide Sound, Next;
  }

  lemma Inhabited(rows: set<int>)
    ensures rows == {} || exists x :: x in rows
  {
    if forall x :: x !in rows {
      assert rows == {};
    }
  }

  lemma {:induction false} LatestIn(s: State, u: Uid, rows: set<Gid>) returns (g: Gid)
    requires rows != {} && forall h :: h in rows ==> IsMember(s, h, u)
    ensures g in rows && IsMember(s, g, u)
    ensures forall h :: h in rows ==> IsMember(s, h, u) && s.groups[h][u].joined <= s.groups[g][u].joined
  {
    Inhabited(rows);
    var first :| first in rows;
    g := first;
    if rows != {g} {
      var h := LatestIn(s, u, rows - {g});
      if s.groups[h][u].joined > s.groups[g][u].joined {
        g := h;
      }
    }
  }

  lemma {:induction false} EarliestIn(roster: Roster, rows: set<Uid>) returns (v: Uid)
    requires rows != {} && rows <= roster.Keys
    ensures v in rows && forall w :: w in rows ==> roster[v].joined <= roster[w].joined
  {
    Inhabited(rows);
    var first :| first in rows;
    v := first;
    if rows != {v} {
      var w := EarliestIn(roster, rows - {v});
      if roster[w].joined < roster[v].joined {
        v := w;
      }
    }
  }

  /** The database always has a row to pick: leaving and removing find a latest other group, or there is none. */
  lemma LatestExists(s: State, u: Uid, left: Gid)
    ensures exists pick :: Latest(s, u, left, pick)
  {
    var rows := set g | g in s.groups && IsMember(s, g, u) && g != left;
    if rows == {} {
      assert forall g :: IsMember(s, g, u) && g != left ==> g in rows;
      assert Latest(s, u, left, None);
    } else {
      var g := LatestIn(s, u, rows);
      assert Latest(s, u, left, Some(g));
    }
  }

  ghost function Heir(roster: Roster, u: Uid): Uid
    requires exists v :: EarliestOther(roster, u, v)
  {
    var v :| EarliestOther(roster, u, v);
    v
  }

  /** And an account can always be deleted: each group that needs an heir has a member to pick. */
  lemma HeirsExist(s: State, u: Uid)
    requires Sound(s)
    ensures exists heirs :: LegalPick(s, DeleteMe(u, heirs))
  {
    forall g | g in Orphaned(s, u) && g !in SoleMemberOf(s, u) ensures exists v :: EarliestOther(s.groups[g], u, v) {
      var rows := s.groups[g].Keys - {u};
      assert rows != {} by {
        assert s.groups[g].Keys != {u} && u in s.groups[g];
      }
      var v := EarliestIn(s.groups[g], rows);
      assert EarliestOther(s.groups[g], u, v);
    }
    var heirs := map g | g in Orphaned(s, u) && g !in SoleMemberOf(s, u) :: Heir(s.groups[g], u);
    assert LegalPick(s, DeleteMe(u, heirs));
  }

  /** A group that loses its only admin to an account deletion gets one new admin: its earliest member left. */
  lemma HeirIsEarliest(s: State, u: Uid, heirs: map<Gid, Uid>, g: Gid, v: Uid)
    requires Sound(s) && LegalPick(s, DeleteMe(u, heirs)) && Next(s, DeleteMe(u, heirs)).1 == Done
    requires IsAdmin(s, g, u) && !AdminBeside(s, g, u) && IsMember(Next(s, DeleteMe(u, heirs)).0, g, v)
    ensures var s' := Next(s, DeleteMe(u, heirs)).0;
            exists heir :: IsAdmin(s', g, heir) && s'.groups[g][heir].joined <= s'.groups[g][v].joined
                           && (IsAdmin(s', g, v) <==> v == heir)
  {
    var call := DeleteMe(u, heirs);
    MembershipMoves(s, call, g, v);
    assert v in s.groups[g] && v != u;
    assert !OtherAdmin(s.groups[g], u) by {
      assert forall w :: w in s.groups[g] && s.groups[g][w].role == Admin ==> IsAdmin(s, g, w);
    }
    assert g in Orphaned(s, u) && g !in SoleMemberOf(s, u);
    var heir := heirs[g];
    assert EarliestOther(s.groups[g], u, heir);
    MembershipMoves(s, call, g, heir);
    RolesMove(s, call, g, heir);
    RolesMove(s, call, g, v);
    assert IsAdmin(Next(s, call).0, g, heir);
    hide Next, Sound, LegalPick, OtherAdmin;
  }

  // ---- over a run -----------------------------------------------------------

  /** The call ends v's membership of g: it is v's own, or an admin of g removes v. */
  ghost predicate Ends(s: State, call: Call, g: Gid, v: Uid) {
    && Next(s, call).1 == Done
    && ((call.Leave? && call.u == v && CallsFor(s, v, g)) || (call.DeleteMe? && call.u == v)
        || (call.RemoveMember? && call.member == v && CallsFor(s, call.u, g) && IsAdmin(s, g, call.u)))
  }

  lemma MembershipEnds(s: State, call: Call, g: Gid, v: Uid)
    requires Sound(s) && LegalPick(s, call) && IsMember(s, g, v) && !IsMember(Next(s, call).0, g, v)
    ensures Ends(s, call, g, v)
  {
    MembershipMoves(s, call, g, v);
  }

  /** Between any two points of a run, a membership ends only by the member's own leave or deletion, or by an admin of the group. */
  lemma {:induction false} MembershipEndsOnlyBy(calls: seq<Call>, i: nat, j: nat, g: Gid, v: Uid)
    requires i <= j <= |calls| && Legal(calls[..j])
    requires IsMember(Run(calls[..i]), g, v) && !IsMember(Run(calls[..j]), g, v)
    ensures exists k: nat :: i <= k < j && Ends(Run(calls[..k]), calls[k], g, v)
  {
    hide Next, Ends, LegalPick, Legal, Run, IsMember;
    NextRun(calls, j - 1);
    if IsMember(Run(calls[..j - 1]), g, v) {
      RunIsSound(calls[..j - 1]);
      MembershipEnds(Run(calls[..j - 1]), calls[j - 1], g, v);
    } else {
      MembershipEndsOnlyBy(calls, i, j - 1, g, v);
    }
  }
}
