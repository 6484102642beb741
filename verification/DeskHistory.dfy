/**
 What the front desk's calls do to passes and members over a run: who is
 signed up and checked in, what revocation and removal end, and that a slip
 shown at the station opens a court.
 */
module DeskHistory {
  import opened Wrappers
  import opened PassDesk
  import opened MemberDesk

  // ---- what one call changes ------------------------------------------------

  /** A pass never changes but for being revoked: by name, or with its member on the day it is for. */
  lemma PassRevokedExactlyWhen(s: Tables, call: Call, q: PassId)
    requires Linked(s) && q in s.passes
    ensures var s' := After(s, call);
            && q in s'.passes && s'.passes[q].(active := true) == s.passes[q].(active := true)
            && (s'.passes[q].active <==>
                  && s.passes[q].active && call.event != RevokePass(q)
                  && !(&& call.event.RemoveMember? && call.event.m in s.members && s.members[call.event.m].active
                       && s.passes[q].member == Some(call.event.m) && s.passes[q].validDate == call.today))
  {
  }

  /** A member never changes but for being removed. */
  lemma MemberRemovedExactlyWhen(s: Tables, call: Call, m: MemberId)
    requires Linked(s) && m in s.members
    ensures var s' := After(s, call);
            && m in s'.members && s'.members[m].(active := true) == s.members[m].(active := true)
            && (s'.members[m].active <==> s.members[m].active && call.event != RemoveMember(m))
  {
  }

  // ---- who gets in ----------------------------------------------------------

  /** A name fit for the desk: 3 to 20 characters, small letters, digits, and - . _ only. */
  predicate DeskName(name: string) {
    3 <= |name| <= 20
    && forall c :: c in name ==> var n := c as int; 97 <= n <= 122 || 48 <= n <= 57 || n == 45 || n == 46 || n == 95
  }

  lemma DeskNameIsValid(name: string)
    ensures DeskName(name) <==> ValidUsername(name)
  {
    assert forall i :: 0 <= i < |name| ==> name[i] in name;
    if DeskName(name) {
      forall i | 0 <= i < |name|
        ensures var c := name[i]; 'a' <= c <= 'z' || '0' <= c <= '9' || c == '_' || c == '.' || c == '-'
      {
        var n := name[i] as int;
        assert n == 45 ==> name[i] == 45 as char;
        assert n == 46 ==> name[i] == 46 as char;
        assert n == 95 ==> name[i] == 95 as char;
      }
    }
  }

  /** A walk-in signs up exactly when the name is fit, nobody has it today and no active member owns it. */
  lemma SignUpExactlyWhen(s: Tables, name: string, secret: string, today: Date)
    ensures Walkin(s, name, secret, today).1.Ok? <==>
              && DeskName(name)
              && (forall p :: p in s.passes ==> s.passes[p].username != name || s.passes[p].validDate != today)
              && (forall m :: m in s.members && s.members[m].active ==> s.members[m].username != name)
    ensures var (s', r) := Walkin(s, name, secret, today);
            if r.Ok? then
              s' == s.(passes := s.passes[s.nextPass := Pass(name, secret, true, None, today)], nextPass := s.nextPass + 1)
            else s' == s
  {
    DeskNameIsValid(name);
    forall p | p in s.passes
      ensures s.passes[p].username == name && s.passes[p].validDate == today <==> Holds(s, p, name, today)
    {
    }
    forall m | m in s.members
      ensures s.members[m].active && s.members[m].username == name <==> ActiveNamed(s, m, name)
    {
    }
    hide DeskName, ValidUsername;
  }

  /** A member is added exactly when card, name and display name are fit, and neither card nor name is in use. */
  lemma AddedExactlyWhen(s: Tables, card: string, name: string, display: Option<string>, today: Date)
    ensures var username := Fold(Trim(name));
            Add(s, card, name, display, today).1.Ok? <==>
              && 1 <= |Trim(card)| <= 64 && DeskName(username)
              && (display.Some? ==> |Trim(display.value)| <= 60)
              && (forall p :: p in s.passes ==> s.passes[p].username != username || s.passes[p].validDate != today)
              && (forall m :: m in s.members && s.members[m].active ==>
                    s.members[m].username != username && s.members[m].ref != Trim(card))
    ensures var (s', r) := Add(s, card, name, display, today);
            if r.Ok? then
              && s'.passes == s.passes && s'.members.Keys == s.members.Keys + {r.value}
              && var member := s'.members[r.value];
                 && member.ref == Trim(card) && member.username == Fold(Trim(name)) && member.active && member.added == today
                 && (member.display.Some? <==> display.Some? && Trim(display.value) != [])
                 && (member.display.Some? ==> member.display.value == Trim(display.value))
            else s' == s
  {
    var username := Fold(Trim(name));
    DeskNameIsValid(username);
    forall p | p in s.passes
      ensures s.passes[p].username == username && s.passes[p].validDate == today <==> Holds(s, p, username, today)
    {
    }
    forall m | m in s.members
      ensures s.members[m].active && s.members[m].username == username <==> ActiveNamed(s, m, username)
      ensures s.members[m].active && s.members[m].ref == Trim(card) <==> ActiveCard(s, m, Trim(card))
    {
    }
    hide DeskName, ValidUsername, Trim, Fold;
  }

  ghost predicate KnownCard(s: Tables, card: string) {
    exists m: MemberId :: ActiveCard(s, m, card)
  }

  /** The active member of the card holds a pass of the day that was revoked. */
  ghost predicate RevokedToday(s: Tables, card: string, today: Date) {
    exists m: MemberId, p: PassId :: ActiveCard(s, m, card) && MembersPass(s, p, m, today) && !s.passes[p].active
  }

  /**
   What the station answers in any run: a card no active member bears is
   unknown, a member whose pass of the day was revoked is told so, and any other
   active member is checked in.
   */
  lemma CheckInAnswers(calls: seq<Call>, i: nat)
    requires i < |calls| && Forward(calls) && calls[i].event.Scan?
    ensures Answer(calls, i) == Err(UnknownMember) <==> !KnownCard(Before(calls, i), calls[i].event.ref)
    ensures Answer(calls, i) == Err(PassRevoked) <==> RevokedToday(Before(calls, i), calls[i].event.ref, calls[i].today)
    ensures Answer(calls, i).Ok? || Answer(calls, i) == Err(UnknownMember) || Answer(calls, i) == Err(PassRevoked)
    ensures Answer(calls, i).Ok? ==> ActiveCard(Before(calls, i), Answer(calls, i).value.member, calls[i].event.ref)
  {
    var s, today, card := Before(calls, i), calls[i].today, calls[i].event.ref;
    NamesStayReserved(calls, i, today);
    CheckInNeverUsernameHeld(calls, i);
    assert Linked(s);
    if m: MemberId :| ActiveCard(s, m, card) {
      CheckInIsOf(s, card, calls[i].secret, today, m);
      assert forall n: MemberId :: ActiveCard(s, n, card) ==> n == m;
      if p: PassId :| MembersPass(s, p, m, today) {
        OnePassADay(s, p, m, today);
      }
    }
    hide Linked, Reserved;
  }

  // ---- what revocation ends -------------------------------------------------

  ghost predicate Inactive(s: Tables, q: PassId) {
    q in s.passes && !s.passes[q].active
  }

  lemma {:induction false} InactiveStays(calls: seq<Call>, i: nat, j: nat, q: PassId)
    requires i <= j <= |calls| && Forward(calls) && Inactive(Before(calls, i), q)
    ensures Inactive(Before(calls, j), q)
  {
    if i < j {
      InactiveStays(calls, i, j - 1, q);
      NamesStayReserved(calls, j - 1, calls[j - 1].today);
      PassRevokedExactlyWhen(Before(calls, j - 1), calls[j - 1], q);
    }
  }

  /** A revoked pass is accepted neither for play nor for leaving. */
  lemma InactiveIsRefused(passes: map<PassId, Pass>, q: PassId, players: seq<PlayerCred>, n: nat, day: Date, mode: Mode)
    requires OneADay(passes) && q in passes && !passes[q].active && n < |players|
    ensures Verdict(passes, players, n, day, mode).Ok? ==> Verdict(passes, players, n, day, mode).value.pass != q
  {
  }

  /** A pass revoked at the desk is never accepted again, whoever presents it, on any day, for play or for leaving. */
  lemma RevokedPassStaysOut(calls: seq<Call>, i: nat, j: nat, q: PassId, players: seq<PlayerCred>, n: nat, day: Date,
                            mode: Mode)
    requires i < j < |calls| && Forward(calls) && calls[i].event == RevokePass(q) && q in Before(calls, i).passes
    requires n < |players|
    ensures Verdict(Before(calls, j).passes, players, n, day, mode).Ok? ==>
              Verdict(Before(calls, j).passes, players, n, day, mode).value.pass != q
  {
    NamesStayReserved(calls, i, calls[i].today);
    PassRevokedExactlyWhen(Before(calls, i), calls[i], q);
    InactiveStays(calls, i + 1, j, q);
    NamesStayReserved(calls, j, calls[j].today);
    InactiveIsRefused(Before(calls, j).passes, q, players, n, day, mode);
  }

  ghost predicate Removed(s: Tables, m: MemberId) {
    m in s.members && !s.members[m].active
  }

  lemma {:induction false} RemovedStays(calls: seq<Call>, i: nat, j: nat, m: MemberId)
    requires i <= j <= |calls| && Forward(calls) && Removed(Before(calls, i), m)
    ensures Removed(Before(calls, j), m)
  {
    if i < j {
      RemovedStays(calls, i, j - 1, m);
      NamesStayReserved(calls, j - 1, calls[j - 1].today);
      MemberRemovedExactlyWhen(Before(calls, j - 1), calls[j - 1], m);
    }
  }

  /** A removed member is never checked in again. */
  lemma RemovedMemberStaysOut(calls: seq<Call>, i: nat, j: nat, m: MemberId)
    requires i < j < |calls| && Forward(calls) && calls[i].event == RemoveMember(m) && m in Before(calls, i).members
    requires calls[j].event.Scan? && Answer(calls, j).Ok?
    ensures Answer(calls, j).value.member != m
  {
    NamesStayReserved(calls, i, calls[i].today);
    MemberRemovedExactlyWhen(Before(calls, i), calls[i], m);
    RemovedStays(calls, i + 1, j, m);
    CheckInAnswers(calls, j);
    hide Linked, Reserved, After, Answer;
  }

  /** The pass a member holds on the day they are removed is never accepted again either. */
  lemma RemovedMembersPassStaysOut(calls: seq<Call>, i: nat, j: nat, m: MemberId, q: PassId, players: seq<PlayerCred>,
                                   n: nat, day: Date, mode: Mode)
    requires i < j < |calls| && Forward(calls) && calls[i].event == RemoveMember(m)
    requires m in Before(calls, i).members && Before(calls, i).members[m].active
    requires MembersPass(Before(calls, i), q, m, calls[i].today) && n < |players|
    ensures Verdict(Before(calls, j).passes, players, n, day, mode).Ok? ==>
              Verdict(Before(calls, j).passes, players, n, day, mode).value.pass != q
  {
    NamesStayReserved(calls, i, calls[i].today);
    PassRevokedExactlyWhen(Before(calls, i), calls[i], q);
    InactiveStays(calls, i + 1, j, q);
    NamesStayReserved(calls, j, calls[j].today);
    InactiveIsRefused(Before(calls, j).passes, q, players, n, day, mode);
    hide Verdict, After;
  }

  // ---- the slip opens a court -----------------------------------------------

  lemma {:induction false} MemberNamesAreValid(calls: seq<Call>, i: nat, m: MemberId)
    requires i <= |calls| && m in Before(calls, i).members
    ensures ValidUsername(Before(calls, i).members[m].username)
  {
    if i > 0 {
      var s, call := Before(calls, i - 1), calls[i - 1];
      hide ValidUsername, Trim, Fold;
      if m in s.members {
        MemberNamesAreValid(calls, i - 1, m);
        MemberKeepsName(s, call, m);
      } else {
        NewMemberIsValid(s, call, m);
      }
    }
  }

  lemma MemberKeepsName(s: Tables, call: Call, m: MemberId)
    requires m in s.members && m in After(s, call).members
    ensures After(s, call).members[m].username == s.members[m].username || ValidUsername(After(s, call).members[m].username)
  {
    hide ValidUsername, Trim, Fold;
  }

  lemma NewMemberIsValid(s: Tables, call: Call, m: MemberId)
    requires m !in s.members && m in After(s, call).members
    ensures ValidUsername(After(s, call).members[m].username)
  {
    hide ValidUsername, Trim, Fold;
  }

  /** The slip a check-in just showed resolves for play, the same day, against the tables it left behind. */
  lemma CheckInOpensCourt(calls: seq<Call>, i: nat)
    requires i < |calls| && Forward(calls) && calls[i].event.Scan? && Answer(calls, i).Ok?
    requires Trim(Answer(calls, i).value.password) == Answer(calls, i).value.password
    ensures var slip := Answer(calls, i).value;
            Verdict(Before(calls, i + 1).passes, [PlayerCred(slip.username, slip.password)], 0, calls[i].today, Play).Ok?
  {
    var s, s', today := Before(calls, i), Before(calls, i + 1), calls[i].today;
    var slip := Answer(calls, i).value;
    var player := PlayerCred(slip.username, slip.password);
    NamesStayReserved(calls, i, today);
    NamesStayReserved(calls, i + 1, today);
    MemberNamesAreValid(calls, i, slip.member);
    ShownPassIsActive(s, calls[i].event.ref, calls[i].secret, today);
    ValidNameIsTrimmed(slip.username);
    var p: PassId :| p in s'.passes && s'.passes[p].active && s'.passes[p].validDate == today
                     && s'.passes[p].username == slip.username && s'.passes[p].password == slip.password;
    assert Opens(s'.passes[p], player, today);
    PlayNeedsTodaysPass(s'.passes, [player], 0, today);
    hide Linked, CheckIn, Before, ValidUsername, Verdict;
  }

  lemma ShownPassIsActive(s: Tables, ref: string, secret: string, today: Date)
    requires Linked(s) && CheckIn(s, ref, secret, today).1.Ok?
    ensures var s', slip := CheckIn(s, ref, secret, today).0, CheckIn(s, ref, secret, today).1.value;
            && slip.member in s.members && slip.username == s.members[slip.member].username
            && exists p: PassId :: p in s'.passes && s'.passes[p].active && s'.passes[p].validDate == today
                                   && s'.passes[p].username == slip.username && s'.passes[p].password == slip.password
  {
    var s', slip := CheckIn(s, ref, secret, today).0, CheckIn(s, ref, secret, today).1.value;
    if p: PassId :| MembersPass(s, p, slip.member, today) {
      OnePassADay(s, p, slip.member, today);
      assert p in s'.passes && s'.passes[p].active;
    } else {
      assert s.nextPass in s'.passes && s'.passes[s.nextPass].active;
    }
  }
}
