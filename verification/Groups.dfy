/**
 Group membership: creating, joining, leaving and administering groups, each
 user's active group, and account deletion. Calls are atomic. Where SQL orders
 rows and ties are possible, the row the database picks is part of the call.
 */
module Groups {
  import opened Wrappers

  type Uid = int
  type Gid = int

  const MAX_GROUPS_PER_USER: nat := 20

  datatype Role = Admin | Plain

  datatype Membership = Membership(role: Role, joined: int)

  type Roster = map<Uid, Membership>

  datatype Status = Active | Pending | Off

  datatype User = User(status: Status, group: Option<Gid>)

  /** The groups with their members, and the users with their active group. */
  datatype State = State(groups: map<Gid, Roster>, users: map<Uid, User>, nextGroup: Gid)

  datatype Reply = Done | Unauthorized | BadName | TooMany | Forbidden | NoActiveGroup | NotFound
                 | LastAdmin | UseLeave | Dead

  datatype Call =
    | Register(u: Uid, status: Status)
    | SetStatus(u: Uid, status: Status)
    | Create(u: Uid, nameOk: bool, now: int)
    | SetActive(u: Uid, g: Gid)
    | SetRole(u: Uid, member: Uid, role: Role)
    | RemoveMember(u: Uid, member: Uid, pick: Option<Gid>)
    | Leave(u: Uid, pick: Option<Gid>)
    | AcceptInvite(u: Uid, g: Gid, now: int)
    | JoinLink(u: Uid, g: Gid, banned: bool, now: int)
    | DeleteMe(u: Uid, heirs: map<Gid, Uid>)

  // ---- statements -----------------------------------------------------------

  predicate IsMember(s: State, g: Gid, u: Uid) {
    g in s.groups && u in s.groups[g]
  }

  predicate IsAdmin(s: State, g: Gid, u: Uid) {
    IsMember(s, g, u) && s.groups[g][u].role == Admin
  }

  predicate OtherAdmin(roster: Roster, u: Uid) {
    exists v :: v in roster && v != u && roster[v].role == Admin
  }

  function WithActive(s: State, u: Uid, g: Option<Gid>): State
    requires u in s.users
  {
    s.(users := s.users[u := s.users[u].(group := g)])
  }

  /** DELETE FROM groups: members go with it, and whoever had it active has none. */
  function Dissolve(s: State, gone: set<Gid>): State {
    s.(groups := s.groups - gone,
       users := map u | u in s.users ::
         if s.users[u].group.Some? && s.users[u].group.value in gone then s.users[u].(group := None) else s.users[u])
  }

  function WithoutMember(s: State, g: Gid, u: Uid): State
    requires g in s.groups
  {
    s.(groups := s.groups[g := s.groups[g] - {u}])
  }

  /** INSERT ... ON CONFLICT DO NOTHING. */
  function WithMember(s: State, g: Gid, u: Uid, now: int): State
    requires g in s.groups
  {
    if u in s.groups[g] then s else s.(groups := s.groups[g := s.groups[g][u := Membership(Plain, now)]])
  }

  function Repoint(s: State, u: Uid, left: Gid, pick: Option<Gid>): State {
    if u in s.users && s.users[u].group == Some(left) then WithActive(s, u, pick) else s
  }

  /** The subquery's answer: the user's most recently joined group other than `left`. */
  ghost predicate Latest(s: State, u: Uid, left: Gid, pick: Option<Gid>) {
    match pick
    case None => forall g :: IsMember(s, g, u) ==> g == left
    case Some(g) =>
      && IsMember(s, g, u) && g != left
      && forall h :: IsMember(s, h, u) && h != left ==> s.groups[h][u].joined <= s.groups[g][u].joined
  }

  /** The caller's active group, verified against the membership table. */
  predicate HasActive(s: State, u: Uid) {
    u in s.users && s.users[u].group.Some? && IsMember(s, s.users[u].group.value, u)
  }

  predicate MayCall(s: State, u: Uid) {
    u in s.users && s.users[u].status == Active
  }

  function GroupsOf(s: State, u: Uid): set<Gid> {
    set g | g in s.groups && u in s.groups[g]
  }

  // ---- account deletion -----------------------------------------------------

  function SoleMemberOf(s: State, u: Uid): set<Gid> {
    set g | g in s.groups && s.groups[g].Keys == {u}
  }

  /** Groups that would lose their only admin. */
  function Orphaned(s: State, u: Uid): set<Gid> {
    set g | g in s.groups && IsAdmin(s, g, u) && !OtherAdmin(s.groups[g], u)
  }

  predicate EarliestOther(roster: Roster, u: Uid, heir: Uid) {
    heir in roster && heir != u && forall v :: v in roster && v != u ==> roster[heir].joined <= roster[v].joined
  }

  function Promoted(s: State, heirs: map<Gid, Uid>): State {
    s.(groups := map g | g in s.groups ::
       if g in heirs && heirs[g] in s.groups[g] then s.groups[g][heirs[g] := s.groups[g][heirs[g]].(role := Admin)]
       else s.groups[g])
  }

  function WithoutUser(s: State, u: Uid): State {
    s.(groups := map g | g in s.groups :: s.groups[g] - {u})
  }

  function Deleted(s: State, u: Uid, heirs: map<Gid, Uid>): State
    requires u in s.users
  {
    var left := WithoutUser(Promoted(Dissolve(s, SoleMemberOf(s, u)), heirs), u);
    left.(users := left.users[u := User(Off, None)])
  }

  // ---- the calls ------------------------------------------------------------

  function Next(s: State, call: Call): (State, Reply) {
    match call
    case Register(u, status) =>
      if u in s.users then (s, Forbidden) else (s.(users := s.users[u := User(status, None)]), Done)
    case SetStatus(u, status) =>
      if u !in s.users then (s, NotFound) else (s.(users := s.users[u := s.users[u].(status := status)]), Done)
    case Create(u, nameOk, now) =>
      if !MayCall(s, u) then (s, Unauthorized)
      else if !nameOk then (s, BadName)
      else if |GroupsOf(s, u)| >= MAX_GROUPS_PER_USER then (s, TooMany)
      else
        (WithActive(State(s.groups[s.nextGroup := map[u := Membership(Admin, now)]], s.users, s.nextGroup + 1),
                    u, Some(s.nextGroup)),
         Done)
    case SetActive(u, g) =>
      if !MayCall(s, u) then (s, Unauthorized)
      else if !IsMember(s, g, u) then (s, Forbidden)
      else (WithActive(s, u, Some(g)), Done)
    case SetRole(u, member, role) =>
      if !MayCall(s, u) then (s, Unauthorized)
      else if !HasActive(s, u) then (s, NoActiveGroup)
      else
        var g := s.users[u].group.value;
        var roster := s.groups[g];
        if roster[u].role != Admin then (s, Forbidden)
        else if role == Plain && !OtherAdmin(roster, member) then (s, LastAdmin)
        else if member !in roster then (s, NotFound)
        else (s.(groups := s.groups[g := roster[member := roster[member].(role := role)]]), Done)
    case RemoveMember(u, member, pick) =>
      if !MayCall(s, u) then (s, Unauthorized)
      else if !HasActive(s, u) then (s, NoActiveGroup)
      else
        var g := s.users[u].group.value;
        if s.groups[g][u].role != Admin then (s, Forbidden)
        else if member == u then (s, UseLeave)
        else if member !in s.groups[g] then (s, NotFound)
        else (Repoint(WithoutMember(s, g, member), member, g, pick), Done)
    case Leave(u, pick) =>
      if !MayCall(s, u) then (s, Unauthorized)
      else if !HasActive(s, u) then (s, NoActiveGroup)
      else
        var g := s.users[u].group.value;
        if |s.groups[g]| == 1 then (Repoint(Dissolve(s, {g}), u, g, pick), Done)
        else if s.groups[g][u].role == Admin && !OtherAdmin(s.groups[g], u) then (s, LastAdmin)
        else (Repoint(WithoutMember(s, g, u), u, g, pick), Done)
    case AcceptInvite(u, g, now) =>
      if !MayCall(s, u) then (s, Unauthorized)
      else if g !in s.groups then (s, Dead)
      else
        var s' := WithMember(s, g, u, now);
        (if s'.users[u].group.None? then WithActive(s', u, Some(g)) else s', Done)
    case JoinLink(u, g, banned, now) =>
      if !MayCall(s, u) then (s, Unauthorized)
      else if g !in s.groups || banned then (s, Dead)
      else (WithActive(WithMember(s, g, u, now), u, Some(g)), Done)
    case DeleteMe(u, heirs) =>
      if u !in s.users || s.users[u].status == Off then (s, Unauthorized)
      else (Deleted(s, u, heirs), Done)
  }

  /** The rows the database picked are the ones the queries ask for. */
  ghost predicate LegalPick(s: State, call: Call) {
    match call
    case RemoveMember(u, member, pick) =>
      HasActive(s, u) ==> Latest(s, member, s.users[u].group.value, pick)
    case Leave(u, pick) =>
      HasActive(s, u) ==> Latest(s, u, s.users[u].group.value, pick)
    case DeleteMe(u, heirs) =>
      && (forall g :: g in heirs <==> g in Orphaned(s, u) && g !in SoleMemberOf(s, u))
      && (forall g :: g in heirs ==> EarliestOther(s.groups[g], u, heirs[g]))
    case _ => true
  }

  // ---- every call keeps groups administered ---------------------------------

  ghost predicate Sound(s: State) {
    && (forall g :: g in s.groups ==> g < s.nextGroup && exists v :: v in s.groups[g] && s.groups[g][v].role == Admin)
    && (forall u :: u in s.users && s.users[u].group.Some? ==> IsMember(s, s.users[u].group.value, u))
    && (forall g, u :: IsMember(s, g, u) ==> u in s.users)
  }

  lemma DemoteKeepsSound(s: State, u: Uid, member: Uid, role: Role)
    requires Sound(s)
    ensures Sound(Next(s, SetRole(u, member, role)).0)
  {
    var (s', r) := Next(s, SetRole(u, member, role));
    if r == Done {
      var g := s.users[u].group.value;
      assert forall h, w :: IsMember(s', h, w) <==> IsMember(s, h, w);
      if role == Plain {
        var v :| v in s.groups[g] && v != member && s.groups[g][v].role == Admin;
        assert s'.groups[g][v].role == Admin;
      } else {
        assert s'.groups[g][member].role == Admin;
      }
    }
  }

  /** Removing one member of a group that keeps an admin, then repointing that member. */
  lemma DepartureKeepsSound(s: State, g: Gid, u: Uid, pick: Option<Gid>)
    requires Sound(s) && g in s.groups && OtherAdmin(s.groups[g], u) && Latest(s, u, g, pick)
    ensures Sound(Repoint(WithoutMember(s, g, u), u, g, pick))
  {
    var s' := Repoint(WithoutMember(s, g, u), u, g, pick);
    var v :| v in s.groups[g] && v != u && s.groups[g][v].role == Admin;
    assert v in s'.groups[g] && s'.groups[g][v].role == Admin;
    assert forall h, w :: IsMember(s', h, w) <==> IsMember(s, h, w) && !(h == g && w == u);
  }

  lemma DissolveKeepsSound(s: State, gone: set<Gid>)
    requires Sound(s)
    ensures Sound(Dissolve(s, gone))
  {
    var s' := Dissolve(s, gone);
    forall g | g in s'.groups ensures exists v :: v in s'.groups[g] && s'.groups[g][v].role == Admin {
      assert s'.groups[g] == s.groups[g];
    }
    assert forall h, w :: IsMember(s', h, w) <==> IsMember(s, h, w) && h !in gone;
  }

  lemma LeaveKeepsSound(s: State, u: Uid, pick: Option<Gid>)
    requires Sound(s) && LegalPick(s, Leave(u, pick))
    ensures Sound(Next(s, Leave(u, pick)).0)
  {
    if MayCall(s, u) && HasActive(s, u) {
      var g := s.users[u].group.value;
      SomeAdmin(s, g, u);
      if |s.groups[g]| == 1 {
        DissolveKeepsSound(s, {g});
        assert Repoint(Dissolve(s, {g}), u, g, pick) == Dissolve(s, {g});
      } else if OtherAdmin(s.groups[g], u) {
        DepartureKeepsSound(s, g, u, pick);
      }
    }
  }

  lemma SomeAdmin(s: State, g: Gid, u: Uid)
    requires Sound(s) && IsMember(s, g, u)
    ensures OtherAdmin(s.groups[g], u) || s.groups[g][u].role == Admin
  {
  }

  lemma RemoveKeepsSound(s: State, u: Uid, member: Uid, pick: Option<Gid>)
    requires Sound(s) && LegalPick(s, RemoveMember(u, member, pick))
    ensures Sound(Next(s, RemoveMember(u, member, pick)).0)
  {
    if Next(s, RemoveMember(u, member, pick)).1 == Done {
      var g := s.users[u].group.value;
      assert u in s.groups[g] && u != member && s.groups[g][u].role == Admin;
      DepartureKeepsSound(s, g, member, pick);
    }
  }

  lemma JoinKeepsSound(s: State, g: Gid, u: Uid, now: int)
    requires Sound(s) && g in s.groups && u in s.users
    ensures Sound(WithMember(s, g, u, now)) && IsMember(WithMember(s, g, u, now), g, u)
  {
    var s' := WithMember(s, g, u, now);
    forall h | h in s'.groups ensures exists v :: v in s'.groups[h] && s'.groups[h][v].role == Admin {
      var v :| v in s.groups[h] && s.groups[h][v].role == Admin;
      assert v in s'.groups[h] && s'.groups[h][v] == s.groups[h][v];
    }
    assert forall h, w :: IsMember(s', h, w) <==> IsMember(s, h, w) || (h == g && w == u);
  }

  lemma SwitchKeepsSound(s: State, u: Uid, g: Gid)
    requires Sound(s) && u in s.users && IsMember(s, g, u)
    ensures Sound(WithActive(s, u, Some(g)))
  {
    assert forall h, w :: IsMember(WithActive(s, u, Some(g)), h, w) <==> IsMember(s, h, w);
  }

  lemma UserRowKeepsSound(s: State, u: Uid, user: User)
    requires Sound(s) && user.group == if u in s.users then s.users[u].group else None
    ensures Sound(s.(users := s.users[u := user]))
  {
    var s' := s.(users := s.users[u := user]);
    forall h, w | IsMember(s', h, w) ensures w in s'.users {
      assert IsMember(s, h, w);
    }
    forall w | w in s'.users && s'.users[w].group.Some? ensures IsMember(s', s'.users[w].group.value, w) {
      assert w in s.users && s.users[w].group == s'.users[w].group;
      assert IsMember(s, s.users[w].group.value, w);
    }
  }

  lemma CreateKeepsSound(s: State, u: Uid, nameOk: bool, now: int)
    requires Sound(s)
    ensures Sound(Next(s, Create(u, nameOk, now)).0)
  {
    var (s', r) := Next(s, Create(u, nameOk, now));
    if r == Done {
      assert u in s'.groups[s.nextGroup];
      forall h | h in s'.groups ensures exists v :: v in s'.groups[h] && s'.groups[h][v].role == Admin {
        if h != s.nextGroup {
          assert s'.groups[h] == s.groups[h];
        }
      }
      assert forall h, w :: IsMember(s', h, w) <==> IsMember(s, h, w) || (h == s.nextGroup && w == u);
    }
  }

  /** What deletion does to one surviving group: its heir is admin, the user is gone, the rest is untouched. */
  lemma DeletedGroup(s: State, u: Uid, heirs: map<Gid, Uid>, g: Gid)
    requires Sound(s) && u in s.users && LegalPick(s, DeleteMe(u, heirs)) && g in s.groups && g !in SoleMemberOf(s, u)
    ensures var roster, roster' := s.groups[g], Deleted(s, u, heirs).groups[g];
            && roster'.Keys == roster.Keys - {u}
            && (forall v :: v in roster' ==>
                  roster'[v] == if g in Orphaned(s, u) && v == heirs[g] then roster[v].(role := Admin) else roster[v])
            && exists v :: v in roster' && roster'[v].role == Admin
  {
    var roster, roster' := s.groups[g], Deleted(s, u, heirs).groups[g];
    assert Dissolve(s, SoleMemberOf(s, u)).groups[g] == roster;
    if g in Orphaned(s, u) {
      assert EarliestOther(roster, u, heirs[g]);
      assert heirs[g] in roster' && roster'[heirs[g]].role == Admin;
    } else {
      var v :| v in roster && roster[v].role == Admin && v != u;
      assert v in roster' && roster'[v].role == Admin;
    }
  }

  /** Whoever stays keeps their active group: a dissolved group had no other member. */
  lemma DeletionKeepsOtherUsers(s: State, u: Uid, heirs: map<Gid, Uid>)
    requires Sound(s) && u in s.users
    ensures Deleted(s, u, heirs).users == s.users[u := User(Off, None)]
  {
    forall v | v in s.users && v != u ensures Dissolve(s, SoleMemberOf(s, u)).users[v] == s.users[v] {
      if s.users[v].group.Some? {
        assert IsMember(s, s.users[v].group.value, v);
      }
    }
  }

  lemma DeletionRemovesRows(s: State, u: Uid, heirs: map<Gid, Uid>)
    requires Sound(s) && LegalPick(s, DeleteMe(u, heirs)) && u in s.users
    ensures Deleted(s, u, heirs).groups.Keys == s.groups.Keys - SoleMemberOf(s, u)
    ensures forall g, v :: IsMember(Deleted(s, u, heirs), g, v) <==> IsMember(s, g, v) && v != u
  {
    var s' := Deleted(s, u, heirs);
    assert s'.groups.Keys == s.groups.Keys - SoleMemberOf(s, u);
    forall g | g in s'.groups ensures s'.groups[g].Keys == s.groups[g].Keys - {u} {
      DeletedGroup(s, u, heirs, g);
    }
    hide Deleted, LegalPick, Sound;
  }

  lemma DeleteKeepsSound(s: State, u: Uid, heirs: map<Gid, Uid>)
    requires Sound(s) && LegalPick(s, DeleteMe(u, heirs)) && u in s.users
    ensures Sound(Deleted(s, u, heirs))
  {
    var s' := Deleted(s, u, heirs);
    DeletionKeepsOtherUsers(s, u, heirs);
    DeletionRemovesRows(s, u, heirs);
    forall g | g in s'.groups ensures exists v :: v in s'.groups[g] && s'.groups[g][v].role == Admin {
      DeletedGroup(s, u, heirs, g);
    }
    assert s'.nextGroup == s.nextGroup;
    hide Deleted, LegalPick, SoleMemberOf, Orphaned;
  }

  /** Every call keeps an admin in every group, and every active group is one the user belongs to. */
  lemma CallKeepsSound(s: State, call: Call)
    requires Sound(s) && LegalPick(s, call)
    ensures Sound(Next(s, call).0)
  {
    match call
    case Register(u, status) => UserRowKeepsSound(s, u, User(status, if u in s.users then s.users[u].group else None));
    case SetStatus(u, status) => UserRowKeepsSound(s, u, User(status, if u in s.users then s.users[u].group else None));
    case Create(u, nameOk, now) => CreateKeepsSound(s, u, nameOk, now);
    case SetRole(u, member, role) => DemoteKeepsSound(s, u, member, role);
    case RemoveMember(u, member, pick) => RemoveKeepsSound(s, u, member, pick);
    case Leave(u, pick) => LeaveKeepsSound(s, u, pick);
    case DeleteMe(u, heirs) =>
      if u in s.users {
        DeleteKeepsSound(s, u, heirs);
      }
    case _ => ArrivalKeepsSound(s, call);
  }

  lemma ArrivalKeepsSound(s: State, call: Call)
    requires Sound(s) && (call.SetActive? || call.AcceptInvite? || call.JoinLink?)
    ensures Sound(Next(s, call).0)
  {
    if Next(s, call).1 == Done {
      if !call.SetActive? {
        JoinKeepsSound(s, call.g, call.u, call.now);
        SwitchKeepsSound(WithMember(s, call.g, call.u, call.now), call.u, call.g);
      } else {
        SwitchKeepsSound(s, call.u, call.g);
      }
    }
    hide Sound, IsMember;
  }

  // ---- runs -----------------------------------------------------------------

  const EMPTY := State(map[], map[], 0)

  function Run(calls: seq<Call>): State {
    if calls == [] then EMPTY else Next(Run(calls[..|calls| - 1]), calls[|calls| - 1]).0
  }

  ghost predicate Legal(calls: seq<Call>) {
    calls == [] || (Legal(calls[..|calls| - 1]) && LegalPick(Run(calls[..|calls| - 1]), calls[|calls| - 1]))
  }

  lemma {:induction false} RunIsSound(calls: seq<Call>)
    requires Legal(calls)
    ensures Sound(Run(calls))
  {
    if calls != [] {
      RunIsSound(calls[..|calls| - 1]);
      CallKeepsSound(Run(calls[..|calls| - 1]), calls[|calls| - 1]);
    }
  }

  /**
   After any run every group has a member and an admin, and every user's active
   group is none or a group they belong to.
   */
  lemma GroupsStayAdministered(calls: seq<Call>)
    requires Legal(calls)
    ensures forall g :: g in Run(calls).groups ==> exists v :: IsAdmin(Run(calls), g, v)
    ensures forall u :: u in Run(calls).users && Run(calls).users[u].group.Some? ==> HasActive(Run(calls), u)
  {
    RunIsSound(calls);
    forall g | g in Run(calls).groups ensures exists v :: IsAdmin(Run(calls), g, v) {
      var v :| v in Run(calls).groups[g] && Run(calls).groups[g][v].role == Admin;
      assert IsAdmin(Run(calls), g, v);
    }
  }

  /**
   Account deletion: groups where the user was alone are gone; every other group
   loses exactly that user, and gets its earliest other member as admin where the
   user was its only one. Nobody else's active group changes.
   */
  lemma DeletionSparesEveryoneElse(calls: seq<Call>, u: Uid, heirs: map<Gid, Uid>)
    requires Legal(calls + [DeleteMe(u, heirs)]) && u in Run(calls).users && Run(calls).users[u].status != Off
    ensures var s, s' := Run(calls), Run(calls + [DeleteMe(u, heirs)]);
            && (forall g :: g in s'.groups <==> g in s.groups && s.groups[g].Keys != {u})
            && (forall g, v :: IsMember(s', g, v) <==> IsMember(s, g, v) && v != u)
            && (forall g, v :: IsAdmin(s', g, v) ==>
                  IsAdmin(s, g, v) || (!OtherAdmin(s.groups[g], u) && EarliestOther(s.groups[g], u, v)))
            && (forall v :: v in s.users && v != u ==> s'.users[v] == s.users[v])
  {
    var call := DeleteMe(u, heirs);
    assert (calls + [call])[..|calls|] == calls;
    var s, s' := Run(calls), Run(calls + [call]);
    assert s' == Deleted(s, u, heirs) && LegalPick(s, call);
    RunIsSound(calls);
    DeletionKeepsOtherUsers(s, u, heirs);
    DeletionRemovesRows(s, u, heirs);
    forall g | g in s'.groups
      ensures forall v :: IsAdmin(s', g, v) ==>
                IsAdmin(s, g, v) || (!OtherAdmin(s.groups[g], u) && EarliestOther(s.groups[g], u, v))
    {
      DeletedGroup(s, u, heirs, g);
    }
    hide Deleted, Run, Legal;
  }

  /**
   Leaving repoints the active group to the most recently joined other group
   exactly when the user is not the group's only member; a sole member's leave
   dissolves the group and clears the active group, even for a user with others.
   */
  lemma LeaveRepointsExactlyWhen(s: State, u: Uid, pick: Option<Gid>)
    requires Sound(s) && LegalPick(s, Leave(u, pick)) && Next(s, Leave(u, pick)).1 == Done && pick.Some?
    ensures var g, s' := s.users[u].group.value, Next(s, Leave(u, pick)).0;
            && !IsMember(s', g, u)
            && (g in s'.groups <==> s.groups[g].Keys != {u})
            && (s'.users[u].group == pick <==> s.groups[g].Keys != {u})
            && (s'.users[u].group == None <==> s.groups[g].Keys == {u})
  {
    var g := s.users[u].group.value;
    if |s.groups[g]| == 1 {
      assert |s.groups[g].Keys - {u}| == 0;
      assert s.groups[g].Keys == {u};
    }
  }

  lemma NextRun(calls: seq<Call>, i: nat)
    requires i < |calls|
    ensures Run(calls[..i + 1]) == Next(Run(calls[..i]), calls[i]).0
    ensures Legal(calls[..i + 1]) <==> Legal(calls[..i]) && LegalPick(Run(calls[..i]), calls[i])
  {
    assert calls[..i + 1][..i] == calls[..i];
  }

  const ALONE_IN_BOTH := State(map[0 := map[1 := Membership(Admin, 0)], 1 := map[1 := Membership(Admin, 1)]],
                               map[1 := User(Active, Some(1))], 2)

  lemma AloneInBothIsReached()
    ensures var calls := [Register(1, Active), Create(1, true, 0), Create(1, true, 1), Leave(1, Some(0))];
            Legal(calls[..3]) && Run(calls[..3]) == ALONE_IN_BOTH
  {
    var calls := [Register(1, Active), Create(1, true, 0), Create(1, true, 1), Leave(1, Some(0))];
    NextRun(calls, 0);
    NextRun(calls, 1);
    NextRun(calls, 2);
    hide Run, Legal;
    assert calls[..0] == [] && Run(calls[..0]) == EMPTY && Legal(calls[..0]) by {
      RunOfNothing();
    }
    var one := State(map[], map[1 := User(Active, None)], 0);
    var two := State(map[0 := map[1 := Membership(Admin, 0)]], map[1 := User(Active, Some(0))], 1);
    assert Next(EMPTY, calls[0]).0 == one;
    assert GroupsOf(one, 1) == {} && GroupsOf(two, 1) == {0};
    assert Next(one, calls[1]).0 == two;
    assert Next(two, calls[2]).0 == ALONE_IN_BOTH;
  }

  lemma RunOfNothing()
    ensures Run([]) == EMPTY && Legal([])
  {
  }

  /** A user of two groups leaves the one they are alone in: they still belong to the other, and none is active. */
  lemma SoleMemberLeaveClearsActive()
    ensures var calls := [Register(1, Active), Create(1, true, 0), Create(1, true, 1), Leave(1, Some(0))];
            && Legal(calls) && Next(Run(calls[..3]), calls[3]).1 == Done
            && IsMember(Run(calls), 0, 1) && Run(calls).users[1].group == None
  {
    var calls := [Register(1, Active), Create(1, true, 0), Create(1, true, 1), Leave(1, Some(0))];
    AloneInBothIsReached();
    NextRun(calls, 3);
    assert calls[..4] == calls;
    hide Run, Legal;
    assert Latest(ALONE_IN_BOTH, 1, 1, Some(0));
  }
}
