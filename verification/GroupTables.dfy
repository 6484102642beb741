/**
 The groups, group_members and users tables, changed by the group handlers and
 account deletion statement by statement. Every handler is the atomic call of
 `Groups`, with the rows the database picked.
 */
module GroupTables {
  import opened Wrappers
  import opened Groups

  class Tables {
    var groups: map<Gid, Roster>
    var users: map<Uid, User>
    var nextGroup: Gid

    function Contents(): State
      reads this
    {
      State(groups, users, nextGroup)
    }

    /** Every group is administered and every active group is joined; each handler keeps this. */
    ghost predicate Valid()
      reads this
    {
      Sound(Contents())
    }

    constructor ()
      ensures Valid() && Contents() == EMPTY
    {
      groups, users, nextGroup := map[], map[], 0;
    }

    // ---- statements ---------------------------------------------------------

    /** DELETE FROM groups, with its cascade and SET NULL. */
    method DeleteGroups(gone: set<Gid>)
      modifies `groups, `users
      ensures Contents() == Dissolve(old(Contents()), gone)
    {
      groups := groups - gone;
      users := map u | u in users ::
        if users[u].group.Some? && users[u].group.value in gone then users[u].(group := None) else users[u];
    }

    method DeleteMember(g: Gid, u: Uid) returns (affected: nat)
      modifies `groups
      ensures affected == if IsMember(old(Contents()), g, u) then 1 else 0
      ensures affected == 1 ==> Contents() == WithoutMember(old(Contents()), g, u)
      ensures affected == 0 ==> Contents() == old(Contents())
    {
      if g !in groups || u !in groups[g] {
        return 0;
      }
      groups := groups[g := groups[g] - {u}];
      affected := 1;
    }

    method InsertMember(g: Gid, u: Uid, now: int)
      requires g in groups
      modifies `groups
      ensures Contents() == WithMember(old(Contents()), g, u, now)
    {
      if u !in groups[g] {
        groups := groups[g := groups[g][u := Membership(Plain, now)]];
      }
    }

    method UpdateActive(u: Uid, g: Option<Gid>)
      requires u in users
      modifies `users
      ensures Contents() == WithActive(old(Contents()), u, g)
    {
      users := users[u := users[u].(group := g)];
    }

    /** ORDER BY joined_at DESC LIMIT 1 over the user's other groups. */
    method SelectLatest(u: Uid, left: Gid) returns (pick: Option<Gid>)
      ensures Latest(Contents(), u, left, pick)
    {
      var rows := set g | g in groups && u in groups[g] && g != left;
      if rows == {} {
        assert forall g :: IsMember(Contents(), g, u) && g != left ==> g in rows;
        return None;
      }
      var best :| best in rows;
      var rest := rows - {best};
      while rest != {}
        invariant best in rows && rest <= rows
        invariant forall g :: g in rows - rest ==> groups[g][u].joined <= groups[best][u].joined
        decreases |rest|
      {
        var g :| g in rest;
        if groups[g][u].joined > groups[best][u].joined {
          best := g;
        }
        rest := rest - {g};
      }
      pick := Some(best);
    }

    /** ORDER BY joined_at ASC, first row, over a group's other members. */
    method SelectEarliest(g: Gid, u: Uid) returns (heir: Uid)
      requires g in groups && groups[g].Keys - {u} != {}
      ensures EarliestOther(groups[g], u, heir)
    {
      var rows := set v | v in groups[g] && v != u;
      assert rows == groups[g].Keys - {u};
      heir :| heir in rows;
      var rest := rows - {heir};
      while rest != {}
        invariant heir in rows && rest <= rows
        invariant forall v :: v in rows - rest ==> groups[g][heir].joined <= groups[g][v].joined
        decreases |rest|
      {
        var v :| v in rest;
        if groups[g][v].joined < groups[g][heir].joined {
          heir := v;
        }
        rest := rest - {v};
      }
    }

    method RepointActiveGroup(u: Uid, left: Gid) returns (ghost pick: Option<Gid>)
      modifies `users
      ensures Latest(old(Contents()), u, left, pick) && Contents() == Repoint(old(Contents()), u, left, pick)
    {
      var latest := SelectLatest(u, left);
      pick := latest;
      if u in users && users[u].group == Some(left) {
        UpdateActive(u, latest);
      }
    }

    // ---- handlers -----------------------------------------------------------

    method CreateGroup(u: Uid, nameOk: bool, now: int) returns (reply: Reply)
      requires Valid()
      modifies this
      ensures Valid()
      ensures (Contents(), reply) == Next(old(Contents()), Create(u, nameOk, now))
    {
      CallKeepsSound(Contents(), Create(u, nameOk, now));
      hide Sound;
      if !MayCall(Contents(), u) {
        return Unauthorized;
      }
      if !nameOk {
        return BadName;
      }
      var mine := set g | g in groups && u in groups[g];
      if |mine| >= MAX_GROUPS_PER_USER {
        return TooMany;
      }
      var g := nextGroup;
      nextGroup := nextGroup + 1;
      groups := groups[g := map[u := Membership(Admin, now)]];
      UpdateActive(u, Some(g));
      reply := Done;
    }

    method SwitchActive(u: Uid, g: Gid) returns (reply: Reply)
      requires Valid()
      modifies this
      ensures Valid()
      ensures (Contents(), reply) == Next(old(Contents()), SetActive(u, g))
    {
      CallKeepsSound(Contents(), SetActive(u, g));
      hide Sound;
      if !MayCall(Contents(), u) {
        return Unauthorized;
      }
      if g !in groups || u !in groups[g] {
        return Forbidden;
      }
      UpdateActive(u, Some(g));
      reply := Done;
    }

    method SetMemberRole(u: Uid, member: Uid, role: Role) returns (reply: Reply)
      requires Valid()
      modifies this
      ensures Valid()
      ensures (Contents(), reply) == Next(old(Contents()), SetRole(u, member, role))
    {
      CallKeepsSound(Contents(), SetRole(u, member, role));
      hide Sound;
      if !MayCall(Contents(), u) {
        return Unauthorized;
      }
      if !HasActive(Contents(), u) {
        return NoActiveGroup;
      }
      var g := users[u].group.value;
      if groups[g][u].role != Admin {
        return Forbidden;
      }
      if role == Plain {
        var others := set v | v in groups[g] && v != u && v != member && groups[g][v].role == Admin;
        var otherAdmins := |others| + if u != member then 1 else 0;
        assert otherAdmins == 0 <==> !OtherAdmin(groups[g], member) by {
          assert forall v :: v in others <==> v in groups[g] && v != u && v != member && groups[g][v].role == Admin;
        }
        if otherAdmins == 0 {
          return LastAdmin;
        }
      }
      if member !in groups[g] {
        return NotFound;
      }
      groups := groups[g := groups[g][member := groups[g][member].(role := role)]];
      reply := Done;
    }

    method Remove(u: Uid, member: Uid) returns (reply: Reply, ghost pick: Option<Gid>)
      requires Valid()
      modifies this
      ensures Valid()
      ensures reply == Done ==> LegalPick(old(Contents()), RemoveMember(u, member, pick))
      ensures (Contents(), reply) == Next(old(Contents()), RemoveMember(u, member, pick))
    {
      hide Sound;
      pick := None;
      if !MayCall(Contents(), u) {
        return Unauthorized, pick;
      }
      if !HasActive(Contents(), u) {
        return NoActiveGroup, pick;
      }
      var g := users[u].group.value;
      if groups[g][u].role != Admin {
        return Forbidden, pick;
      }
      if member == u {
        return UseLeave, pick;
      }
      ghost var s := Contents();
      var affected := DeleteMember(g, member);
      if affected == 0 {
        return NotFound, pick;
      }
      ghost var t := Contents();
      pick := RepointActiveGroup(member, g);
      SameOtherGroups(s, t, member, g, pick);
      CallKeepsSound(s, RemoveMember(u, member, pick));
      reply := Done;
    }

    method LeaveGroup(u: Uid) returns (reply: Reply, ghost pick: Option<Gid>)
      requires Valid()
      modifies this
      ensures Valid()
      ensures reply == Done ==> LegalPick(old(Contents()), Leave(u, pick))
      ensures (Contents(), reply) == Next(old(Contents()), Leave(u, pick))
    {
      hide Sound;
      pick := None;
      if !MayCall(Contents(), u) {
        return Unauthorized, pick;
      }
      if !HasActive(Contents(), u) {
        return NoActiveGroup, pick;
      }
      var g := users[u].group.value;
      ghost var s := Contents();
      if |groups[g]| == 1 {
        DeleteGroups({g});
      } else {
        if groups[g][u].role == Admin {
          var others := set v | v in groups[g] && v != u && groups[g][v].role == Admin;
          assert OtherAdmin(groups[g], u) <==> others != {} by {
            assert forall v :: v in groups[g] && v != u && groups[g][v].role == Admin ==> v in others;
          }
          if |others| == 0 {
            return LastAdmin, pick;
          }
        }
        var affected := DeleteMember(g, u);
      }
      ghost var t := Contents();
      pick := RepointActiveGroup(u, g);
      SameOtherGroups(s, t, u, g, pick);
      CallKeepsSound(s, Leave(u, pick));
      reply := Done;
    }

    method Accept(u: Uid, g: Gid, now: int) returns (reply: Reply)
      requires Valid()
      modifies this
      ensures Valid()
      ensures (Contents(), reply) == Next(old(Contents()), AcceptInvite(u, g, now))
    {
      CallKeepsSound(Contents(), AcceptInvite(u, g, now));
      hide Sound;
      if !MayCall(Contents(), u) {
        return Unauthorized;
      }
      if g !in groups {
        return Dead;
      }
      InsertMember(g, u, now);
      if users[u].group.None? {
        UpdateActive(u, Some(g));
      }
      reply := Done;
    }

    method JoinViaLink(u: Uid, g: Gid, banned: bool, now: int) returns (reply: Reply)
      requires Valid()
      modifies this
      ensures Valid()
      ensures (Contents(), reply) == Next(old(Contents()), JoinLink(u, g, banned, now))
    {
      CallKeepsSound(Contents(), JoinLink(u, g, banned, now));
      hide Sound;
      if !MayCall(Contents(), u) {
        return Unauthorized;
      }
      if g !in groups || banned {
        return Dead;
      }
      InsertMember(g, u, now);
      UpdateActive(u, Some(g));
      reply := Done;
    }

    /** One row of the update: promote an orphaned group's earliest-joined other member. */
    method PromoteEarliest(g: Gid, u: Uid, ghost s: State, ghost heirs: map<Gid, Uid>) returns (heir: Uid)
      requires SoleMemberOf(s, u) == {} && g in Orphaned(s, u) && g !in heirs
      requires Chosen(s, u, heirs) && Contents() == Promoted(s, heirs)
      modifies `groups
      ensures Chosen(s, u, heirs[g := heir]) && Contents() == Promoted(s, heirs[g := heir])
    {
      OthersRemain(s, g, u);
      NotYetPromoted(s, heirs, g);
      heir := SelectEarliest(g, u);
      PromotedOneMore(s, heirs, g, heir);
      hide Promoted, Orphaned, SoleMemberOf;
      groups := groups[g := groups[g][heir := groups[g][heir].(role := Admin)]];
    }

    /** The row-by-row update that gives every orphaned group its earliest other member as admin. */
    method PromoteHeirs(u: Uid, orphaned: set<Gid>) returns (ghost heirs: map<Gid, Uid>)
      requires orphaned == Orphaned(Contents(), u) && SoleMemberOf(Contents(), u) == {}
      modifies `groups
      ensures heirs.Keys == orphaned && Chosen(old(Contents()), u, heirs)
      ensures Contents() == Promoted(old(Contents()), heirs)
    {
      ghost var s := Contents();
      heirs := map[];
      var rest := orphaned;
      assert Promoted(s, heirs) == s by {
        assert Promoted(s, heirs).groups == s.groups;
      }
      hide Promoted, Orphaned, SoleMemberOf, Chosen;
      while rest != {}
        invariant rest <= orphaned && heirs.Keys == orphaned - rest
        invariant Chosen(s, u, heirs)
        invariant Contents() == Promoted(s, heirs)
        decreases |rest|
      {
        var g :| g in rest;
        var heir := PromoteEarliest(g, u, s, heirs);
        heirs, rest := heirs[g := heir], rest - {g};
      }
    }

    method DeleteAccount(u: Uid) returns (reply: Reply, ghost heirs: map<Gid, Uid>)
      requires Valid()
      modifies this
      ensures Valid()
      ensures reply == Done ==> LegalPick(old(Contents()), DeleteMe(u, heirs))
      ensures (Contents(), reply) == Next(old(Contents()), DeleteMe(u, heirs))
    {
      hide Sound;
      heirs := map[];
      if u !in users || users[u].status == Off {
        return Unauthorized, heirs;
      }
      ghost var s := Contents();
      var alone := set g | g in groups && groups[g].Keys == {u};
      assert alone == SoleMemberOf(s, u);
      DeleteGroups(alone);
      ghost var t := Contents();
      AfterDissolution(s, t, u);
      var orphaned := set g | g in groups && IsAdmin(Contents(), g, u) && !OtherAdmin(groups[g], u);
      assert orphaned == Orphaned(t, u);
      heirs := PromoteHeirs(u, orphaned);
      HeirsAreLegal(s, t, u, heirs);
      hide LegalPick, Chosen, Dissolve, Promoted, SoleMemberOf, Orphaned;
      groups := map g | g in groups :: groups[g] - {u};
      users := users[u := User(Off, None)];
      CallKeepsSound(s, DeleteMe(u, heirs));
      reply := Done;
    }
  }

  /** The heirs picked after the sole-member groups are gone are those the query asks for. */
  lemma HeirsAreLegal(s: State, t: State, u: Uid, heirs: map<Gid, Uid>)
    requires t == Dissolve(s, SoleMemberOf(s, u)) && heirs.Keys == Orphaned(t, u) && Chosen(t, u, heirs)
    ensures LegalPick(s, DeleteMe(u, heirs))
  {
    AfterDissolution(s, t, u);
    assert forall g :: g in t.groups ==> t.groups[g] == s.groups[g];
  }

  /** The other groups a user may be repointed to do not depend on the group just left. */
  lemma SameOtherGroups(s: State, s': State, u: Uid, left: Gid, pick: Option<Gid>)
    requires forall h :: h != left ==> (h in s'.groups <==> h in s.groups)
    requires forall h :: h in s.groups && h != left ==> s'.groups[h] == s.groups[h]
    ensures Latest(s', u, left, pick) <==> Latest(s, u, left, pick)
  {
    assert forall h :: h != left ==> (IsMember(s', h, u) <==> IsMember(s, h, u));
  }

  /** Every heir is the earliest-joined other member of its group. */
  ghost predicate Chosen(s: State, u: Uid, heirs: map<Gid, Uid>) {
    forall g :: g in heirs ==> g in s.groups && EarliestOther(s.groups[g], u, heirs[g])
  }

  lemma NotYetPromoted(s: State, heirs: map<Gid, Uid>, g: Gid)
    requires g in s.groups && g !in heirs
    ensures g in Promoted(s, heirs).groups && Promoted(s, heirs).groups[g] == s.groups[g]
  {
  }

  lemma PromotedOneMore(s: State, heirs: map<Gid, Uid>, g: Gid, heir: Uid)
    requires g in s.groups && g !in heirs && heir in s.groups[g]
    ensures Promoted(s, heirs[g := heir])
            == s.(groups := Promoted(s, heirs).groups[g := s.groups[g][heir := s.groups[g][heir].(role := Admin)]])
  {
  }

  lemma OthersRemain(s: State, g: Gid, u: Uid)
    requires SoleMemberOf(s, u) == {} && g in Orphaned(s, u)
    ensures g in s.groups && s.groups[g].Keys - {u} != {}
  {
    assert s.groups[g].Keys != {u} by {
      assert g !in SoleMemberOf(s, u);
    }
  }

  lemma AfterDissolution(s: State, t: State, u: Uid)
    requires t == Dissolve(s, SoleMemberOf(s, u))
    ensures SoleMemberOf(t, u) == {}
    ensures forall g :: g in Orphaned(t, u) <==> g in Orphaned(s, u) && g !in SoleMemberOf(s, u)
  {
  }
}
