/**
 Matching posted logins onto a scanned facility board: each login resolves to
 its best panel, and each panel's playing and waiting logins become suggested
 reservations. Letter case and word characters are ASCII.
 */
module BoardMatcher {
  import opened Wrappers
  import PassDesk

  datatype Login = Login(id: nat, name: string, inUse: Option<int>)

  /** One panel of the board as read. */
  datatype Panel = Panel(court: int, minutesLeft: Option<int>, current: seq<string>, queue: seq<string>)

  datatype StartType = Now | AtTime

  datatype Suggestion = Suggestion(
    ids: seq<nat>, names: seq<string>, alreadyInUse: seq<nat>, inUseCourt: Option<int>, panel: Panel,
    playing: bool, queuePosition: Option<int>, playerCount: int, startType: StartType, startInMinutes: int, duration: int)

  // ---- names ----------------------------------------------------------------

  predicate WordChar(c: char) {
    'a' <= c <= 'z' || 'A' <= c <= 'Z' || '0' <= c <= '9'
  }

  function Split(s: string, word: string): seq<string> {
    if s == [] then [word]
    else if WordChar(s[0]) then Split(s[1..], word + [s[0]])
    else [word] + Split(s[1..], "")
  }

  predicate OccursAt(hay: string, i: nat, needle: string) {
    i + |needle| <= |hay| && hay[i..i + |needle|] == needle
  }

  predicate Contains(hay: string, needle: string) {
    exists i :: 0 <= i <= |hay| && OccursAt(hay, i, needle)
  }

  /** Some word of at least 3 characters of `a` occurs in `b`. */
  predicate WordOccurs(a: string, b: string) {
    exists t :: t in Split(a, "") && |t| >= 3 && Contains(b, t)
  }

  predicate SameName(login: string, name: string) {
    var l, n := PassDesk.Fold(login), PassDesk.Fold(name);
    n == l || WordOccurs(l, n) || WordOccurs(n, l)
  }

  predicate NameMatches(login: string, names: seq<string>) {
    exists i :: 0 <= i < |names| && SameName(login, names[i])
  }

  // ---- one login's place ----------------------------------------------------

  /** First panel whose current players match, or the number of panels. */
  function FirstPlaying(name: string, board: seq<Panel>): (i: nat)
    ensures i <= |board|
    ensures i < |board| ==> NameMatches(name, board[i].current)
    ensures forall j :: 0 <= j < i ==> !NameMatches(name, board[j].current)
  {
    if board == [] || NameMatches(name, board[0].current) then 0 else 1 + FirstPlaying(name, board[1..])
  }

  /** First matching name, or the number of names. */
  function FirstMatch(name: string, names: seq<string>): (p: nat)
    ensures p <= |names|
    ensures p < |names| ==> SameName(name, names[p])
    ensures forall j :: 0 <= j < p ==> !SameName(name, names[j])
  {
    if names == [] || SameName(name, names[0]) then 0 else 1 + FirstMatch(name, names[1..])
  }

  /** First panel whose queue names match, or the number of panels. */
  function FirstQueued(name: string, board: seq<Panel>): (i: nat)
    ensures i <= |board|
    ensures i < |board| ==> NameMatches(name, board[i].queue)
    ensures forall j :: 0 <= j < i ==> !NameMatches(name, board[j].queue)
  {
    if board == [] || NameMatches(name, board[0].queue) then 0 else 1 + FirstQueued(name, board[1..])
  }

  /** Truncation to a signed 16-bit number. */
  function AsI16(n: nat): int {
    if n % 0x1_0000 < 0x8000 then n % 0x1_0000 else n % 0x1_0000 - 0x1_0000
  }

  datatype Place = Place(panel: nat, playing: bool, position: Option<int>)

  function Resolve(name: string, board: seq<Panel>): Option<Place> {
    var i, q := FirstPlaying(name, board), FirstQueued(name, board);
    if i < |board| then Some(Place(i, true, None))
    else if q < |board| then Some(Place(q, false, Some(AsI16(FirstMatch(name, board[q].queue) + 1))))
    else None
  }

  /**
   A login resolves exactly when some panel names it, to the first panel that
   names it as playing, and only if none does to the first one whose queue
   names it, at its first position there.
   */
  lemma ResolveFindsBest(name: string, board: seq<Panel>)
    ensures Resolve(name, board).Some? <==>
              exists i :: 0 <= i < |board| && (NameMatches(name, board[i].current) || NameMatches(name, board[i].queue))
    ensures Resolve(name, board).Some? ==>
              var p := Resolve(name, board).value;
              && p.panel < |board|
              && (p.playing <==> exists i :: 0 <= i < |board| && NameMatches(name, board[i].current))
              && (p.playing ==> NameMatches(name, board[p.panel].current))
              && (p.playing ==> forall j :: 0 <= j < p.panel ==> !NameMatches(name, board[j].current))
              && (!p.playing ==> NameMatches(name, board[p.panel].queue))
              && (!p.playing ==> forall j :: 0 <= j < p.panel ==> !NameMatches(name, board[j].queue))
    ensures Resolve(name, board).Some? && !Resolve(name, board).value.playing ==>
              var p := Resolve(name, board).value;
              exists k :: 0 <= k < |board[p.panel].queue| && p.position == Some(AsI16(k + 1))
                          && SameName(name, board[p.panel].queue[k])
                          && forall j :: 0 <= j < k ==> !SameName(name, board[p.panel].queue[j])
  {
    var q := FirstQueued(name, board);
    if q < |board| {
      var j :| 0 <= j < |board[q].queue| && SameName(name, board[q].queue[j]);
      assert FirstMatch(name, board[q].queue) < |board[q].queue|;
    }
    hide NameMatches, SameName, AsI16;
  }

  // ---- suggestions ----------------------------------------------------------

  /** One half of a panel: the logins playing there, or the ones waiting there. */
  datatype Half = Half(panel: nat, playing: bool)

  predicate IsAt(login: Login, board: seq<Panel>, h: Half) {
    var p := Resolve(login.name, board);
    p.Some? && p.value.panel == h.panel && p.value.playing == h.playing
  }

  /** The logins resolved to the half, in order. */
  function Group(logins: seq<Login>, board: seq<Panel>, h: Half): seq<Login> {
    if logins == [] then []
    else
      var last := logins[|logins| - 1];
      Group(logins[..|logins| - 1], board, h) + if IsAt(last, board, h) then [last] else []
  }

  function Clamp(x: int, lo: int, hi: int): int {
    if x < lo then lo else if x > hi then hi else x
  }

  function Ids(g: seq<Login>): seq<nat> {
    if g == [] then [] else Ids(g[..|g| - 1]) + [g[|g| - 1].id]
  }

  function Names(g: seq<Login>): seq<string> {
    if g == [] then [] else Names(g[..|g| - 1]) + [g[|g| - 1].name]
  }

  /** The logins already attached to a running reservation. */
  function Busy(g: seq<Login>): seq<Login> {
    if g == [] then [] else Busy(g[..|g| - 1]) + if g[|g| - 1].inUse.Some? then [g[|g| - 1]] else []
  }

  /** The queue position stored for a login waiting at panel q. */
  function StoredPosition(login: Login, board: seq<Panel>, q: nat): int
    requires q < |board|
  {
    AsI16(FirstMatch(login.name, board[q].queue) + 1)
  }

  /** The smallest stored position of a nonempty group. */
  function MinPosition(g: seq<Login>, board: seq<Panel>, q: nat): int
    requires q < |board| && g != []
  {
    var n := |g| - 1;
    var last := StoredPosition(g[n], board, q);
    if n == 0 then last
    else
      var least := MinPosition(g[..n], board, q);
      if last < least then last else least
  }

  /** The reservation suggested for a half with logins. */
  function Suggest(g: seq<Login>, board: seq<Panel>, h: Half): Suggestion
    requires h.panel < |board| && g != []
  {
    var bc, busy := board[h.panel], Busy(g);
    Suggestion(
      Ids(g), Names(g), Ids(busy), if busy == [] then None else busy[0].inUse, bc, h.playing,
      if h.playing then None else Some(Clamp(MinPosition(g, board, h.panel), 1, 5)),
      Clamp(|g|, 1, 4),
      if h.playing then Now else AtTime,
      if h.playing then 0 else if bc.minutesLeft.Some? then Clamp(bc.minutesLeft.value, 2, 170) else 15,
      if h.playing && bc.minutesLeft.Some? then Clamp(bc.minutesLeft.value, 1, 45) else 45)
  }

  /** The halves with logins of the first n panels, in board order, playing first. */
  function Halves(logins: seq<Login>, board: seq<Panel>, n: nat): seq<Half> {
    if n == 0 then []
    else Halves(logins, board, n - 1) + Present(logins, board, Half(n - 1, true)) + Present(logins, board, Half(n - 1, false))
  }

  function Present(logins: seq<Login>, board: seq<Panel>, h: Half): seq<Half> {
    if Group(logins, board, h) != [] then [h] else []
  }

  /** The suggestion list fits the halves listed. */
  ghost predicate Fits(out: seq<Suggestion>, hs: seq<Half>, logins: seq<Login>, board: seq<Panel>) {
    && |out| == |hs|
    && forall s :: 0 <= s < |hs| ==>
         hs[s].panel < |board| && Group(logins, board, hs[s]) != []
         && out[s] == Suggest(Group(logins, board, hs[s]), board, hs[s])
  }

  /** The nested loops over the panels and over playing, then waiting. */
  method BuildMatches(logins: seq<Login>, board: seq<Panel>) returns (out: seq<Suggestion>)
    ensures Fits(out, Halves(logins, board, |board|), logins, board)
  {
    out := [];
    for b := 0 to |board|
      invariant Fits(out, Halves(logins, board, b), logins, board)
    {
      ghost var before := Halves(logins, board, b);
      out := AddHalf(out, before, logins, board, Half(b, true));
      out := AddHalf(out, before + Present(logins, board, Half(b, true)), logins, board, Half(b, false));
      hide Fits, Present;
    }
  }

  /** One turn of the inner loop. */
  method AddHalf(out: seq<Suggestion>, ghost hs: seq<Half>, logins: seq<Login>, board: seq<Panel>, h: Half)
    returns (more: seq<Suggestion>)
    requires Fits(out, hs, logins, board) && h.panel < |board|
    ensures Fits(more, hs + Present(logins, board, h), logins, board)
  {
    var group := Group(logins, board, h);
    if group == [] {
      assert hs + Present(logins, board, h) == hs;
      return out;
    }
    more := out + [Suggest(group, board, h)];
    hide Group, Suggest;
  }

  // ---- properties -----------------------------------------------------------

  ghost predicate DistinctIds(logins: seq<Login>) {
    forall a, b :: a in logins && b in logins && a.id == b.id ==> a == b
  }

  lemma {:induction false} GroupMembers(logins: seq<Login>, board: seq<Panel>, h: Half, login: Login)
    ensures login in Group(logins, board, h) <==> login in logins && IsAt(login, board, h)
  {
    hide IsAt;
    if logins != [] {
      var init, last := logins[..|logins| - 1], logins[|logins| - 1];
      GroupMembers(init, board, h, login);
      assert logins == init + [last];
    }
  }

  lemma {:induction false} IdsOf(g: seq<Login>, id: nat)
    ensures id in Ids(g) <==> exists login :: login in g && login.id == id
  {
    if g != [] {
      IdsOf(g[..|g| - 1], id);
      assert g == g[..|g| - 1] + [g[|g| - 1]];
    }
  }

  lemma IdInSuggestion(logins: seq<Login>, board: seq<Panel>, h: Half, login: Login)
    requires DistinctIds(logins) && login in logins && h.panel < |board| && Group(logins, board, h) != []
    ensures login.id in Suggest(Group(logins, board, h), board, h).ids <==> IsAt(login, board, h)
  {
    var g := Group(logins, board, h);
    assert Suggest(g, board, h).ids == Ids(g);
    hide Suggest, IsAt, Ids;
    IdsOf(g, login.id);
    GroupMembers(logins, board, h, login);
    forall other | other in g && other.id == login.id ensures other == login {
      GroupMembers(logins, board, h, other);
    }
    hide Group;
  }

  lemma {:induction false} HalvesListed(logins: seq<Login>, board: seq<Panel>, n: nat, h: Half)
    ensures h in Halves(logins, board, n) <==> h.panel < n && Group(logins, board, h) != []
  {
    hide Group;
    if n > 0 {
      HalvesListed(logins, board, n - 1, h);
      var init, playing, waiting :=
        Halves(logins, board, n - 1), Present(logins, board, Half(n - 1, true)), Present(logins, board, Half(n - 1, false));
      assert Halves(logins, board, n) == init + playing + waiting;
      assert h in init + playing + waiting <==> h in init || h in playing || h in waiting;
      hide Halves;
    }
  }

  ghost predicate NoRepeats(hs: seq<Half>) {
    forall s, t :: 0 <= s < t < |hs| ==> hs[s] != hs[t]
  }

  lemma PresentKeepsDistinct(hs: seq<Half>, logins: seq<Login>, board: seq<Panel>, h: Half)
    requires NoRepeats(hs) && h !in hs
    ensures NoRepeats(hs + Present(logins, board, h))
  {
  }

  lemma {:induction false} HalvesDistinct(logins: seq<Login>, board: seq<Panel>, n: nat)
    ensures NoRepeats(Halves(logins, board, n))
  {
    hide Group;
    if n > 0 {
      var init, h, k := Halves(logins, board, n - 1), Half(n - 1, true), Half(n - 1, false);
      var more := init + Present(logins, board, h);
      assert Halves(logins, board, n) == more + Present(logins, board, k);
      HalvesDistinct(logins, board, n - 1);
      HalvesListed(logins, board, n - 1, h);
      HalvesListed(logins, board, n - 1, k);
      assert h !in init && k !in init;
      hide Halves, NoRepeats;
      assert k !in Present(logins, board, h);
      PresentKeepsDistinct(init, logins, board, h);
      PresentKeepsDistinct(more, logins, board, k);
    }
  }

  /** Every login that matches some panel is in exactly one suggestion, its best place's; others are in none. */
  lemma EveryLoginOnce(logins: seq<Login>, board: seq<Panel>, out: seq<Suggestion>, login: Login)
    requires Fits(out, Halves(logins, board, |board|), logins, board) && DistinctIds(logins) && login in logins
    ensures var place := Resolve(login.name, board);
            && (place.None? ==> forall s :: 0 <= s < |out| ==> login.id !in out[s].ids)
            && (place.Some? ==>
                  exists s :: 0 <= s < |out| && login.id in out[s].ids
                              && out[s].panel == board[place.value.panel] && out[s].playing == place.value.playing
                              && forall t :: 0 <= t < |out| && login.id in out[t].ids ==> t == s)
  {
    var hs, place := Halves(logins, board, |board|), Resolve(login.name, board);
    forall s | 0 <= s < |out| ensures login.id in out[s].ids <==> IsAt(login, board, hs[s]) {
      IdInSuggestion(logins, board, hs[s], login);
    }
    if place.Some? {
      var h := Half(place.value.panel, place.value.playing);
      GroupMembers(logins, board, h, login);
      HalvesListed(logins, board, |board|, h);
      var s :| 0 <= s < |hs| && hs[s] == h;
      HalvesDistinct(logins, board, |board|);
      assert login.id in out[s].ids;
      assert forall t :: 0 <= t < |out| && login.id in out[t].ids ==> hs[t] == hs[s];
      hide Group, Halves, Resolve, Suggest;
    }
  }

  /** What the reservation form accepts, the start counted from now. */
  predicate AcceptedByCreate(s: Suggestion) {
    && 1 <= s.duration <= 45
    && 1 <= s.playerCount <= 8
    && (s.queuePosition.Some? ==> 1 <= s.queuePosition.value <= 5)
    && (s.startType == AtTime ==> 1 < s.startInMinutes <= 180)
  }

  /** Every suggestion passes the form's range checks and attaches a login; exactly the waiting ones name a queue position. */
  lemma SuggestionsAreAccepted(logins: seq<Login>, board: seq<Panel>, out: seq<Suggestion>, s: nat)
    requires Fits(out, Halves(logins, board, |board|), logins, board) && s < |out|
    ensures AcceptedByCreate(out[s]) && out[s].ids != [] && (out[s].queuePosition.Some? <==> !out[s].playing)
  {
  }

  lemma {:induction false} MinPositionIsLeast(g: seq<Login>, board: seq<Panel>, q: nat)
    requires q < |board| && g != []
    ensures forall login :: login in g ==> MinPosition(g, board, q) <= StoredPosition(login, board, q)
    ensures exists login :: login in g && MinPosition(g, board, q) == StoredPosition(login, board, q)
  {
    hide StoredPosition;
    var n := |g| - 1;
    assert g == g[..n] + [g[n]];
    if n > 0 {
      MinPositionIsLeast(g[..n], board, q);
    }
  }

  /** The true position, 1 for the first name in the queue. */
  function TruePosition(login: Login, board: seq<Panel>, q: nat): nat
    requires q < |board|
  {
    FirstMatch(login.name, board[q].queue) + 1
  }

  /** A waiting half's suggestion carries its earliest matched position, clamped to 1..5. */
  ghost predicate CarriesEarliest(g: seq<Login>, board: seq<Panel>, q: nat)
    requires q < |board| && g != []
  {
    exists login :: login in g
      && Suggest(g, board, Half(q, false)).queuePosition == Some(Clamp(TruePosition(login, board, q), 1, 5))
      && forall other :: other in g ==> TruePosition(login, board, q) <= TruePosition(other, board, q)
  }

  lemma ShortQueueCarriesEarliest(logins: seq<Login>, board: seq<Panel>, q: nat)
    requires q < |board| && Group(logins, board, Half(q, false)) != [] && |board[q].queue| <= 0x7FFF
    ensures CarriesEarliest(Group(logins, board, Half(q, false)), board, q)
  {
    var g := Group(logins, board, Half(q, false));
    MinPositionIsLeast(g, board, q);
    forall login | login in g ensures StoredPosition(login, board, q) == TruePosition(login, board, q) {
      GroupMembers(logins, board, Half(q, false), login);
      WaitingIsListed(login, board, q);
      SmallFitsI16(FirstMatch(login.name, board[q].queue) + 1);
    }
    assert Suggest(g, board, Half(q, false)).queuePosition == Some(Clamp(MinPosition(g, board, q), 1, 5));
    hide MinPosition, Group, StoredPosition, TruePosition, Suggest, Clamp;
    var login :| login in g && MinPosition(g, board, q) == StoredPosition(login, board, q);
    assert forall other :: other in g ==> TruePosition(login, board, q) <= TruePosition(other, board, q);
  }

  lemma SmallFitsI16(n: nat)
    requires n < 0x8000
    ensures AsI16(n) == n
  {
  }

  lemma WaitingIsListed(login: Login, board: seq<Panel>, q: nat)
    requires q < |board| && IsAt(login, board, Half(q, false))
    ensures FirstMatch(login.name, board[q].queue) < |board[q].queue|
  {
  }

  /** n names of which only the 32768th can match "abc". */
  function LongQueue(n: nat): seq<string> {
    seq(n, i => if i == 0x7FFF then "abc" else "x")
  }

  lemma FillerDoesNotMatch()
    ensures !SameName("abc", "x") && SameName("abc", "abc")
  {
  }

  lemma {:induction false} FirstMatchIs(name: string, names: seq<string>, p: nat)
    requires p < |names| && SameName(name, names[p]) && forall j :: 0 <= j < p ==> !SameName(name, names[j])
    ensures FirstMatch(name, names) == p
  {
  }

  lemma LongQueuePlaces(n: nat)
    requires n > 0x7FFF
    ensures var login, board := Login(0, "abc", None), [Panel(1, None, [], LongQueue(n))];
            IsAt(login, board, Half(0, false)) && TruePosition(login, board, 0) == 0x8000
  {
    var login, board := Login(0, "abc", None), [Panel(1, None, [], LongQueue(n))];
    FillerDoesNotMatch();
    hide SameName;
    assert board[0].queue[0x7FFF] == "abc";
    FirstMatchIs("abc", board[0].queue, 0x7FFF);
    assert NameMatches("abc", board[0].queue) && !NameMatches("abc", board[0].current);
    assert FirstPlaying("abc", board) == 1 && FirstQueued("abc", board) == 0;
    hide LongQueue, FirstPlaying, FirstQueued, NameMatches, FirstMatch;
  }

  /** A login matched only at the 32768th name is placed at the front. */
  lemma LongQueueLosesPosition(n: nat)
    requires n > 0x7FFF
    ensures var login, board := Login(0, "abc", None), [Panel(1, None, [], LongQueue(n))];
            && Group([login], board, Half(0, false)) == [login]
            && Suggest([login], board, Half(0, false)).queuePosition == Some(1)
            && !CarriesEarliest([login], board, 0)
  {
    var login, board := Login(0, "abc", None), [Panel(1, None, [], LongQueue(n))];
    LongQueuePlaces(n);
    assert Group([login], board, Half(0, false)) == [login] by {
      assert [login][..0] == [];
    }
    assert MinPosition([login], board, 0) == -0x8000;
    hide IsAt, LongQueue, FirstMatch, Group, MinPosition;
  }

  ghost predicate LengthIsSafe(n: nat) {
    forall logins: seq<Login>, board: seq<Panel>, q: nat ::
      q < |board| && |board[q].queue| == n && Group(logins, board, Half(q, false)) != [] ==>
        CarriesEarliest(Group(logins, board, Half(q, false)), board, q)
  }

  /**
   Exactly which queue lengths keep the promised position: those whose positions
   fit the signed 16-bit number they are stored in.
   */
  lemma PositionSurvivesExactlyWhen(n: nat)
    ensures LengthIsSafe(n) <==> n <= 0x7FFF
  {
    if n <= 0x7FFF {
      forall logins: seq<Login>, board: seq<Panel>, q: nat
        | q < |board| && |board[q].queue| == n && Group(logins, board, Half(q, false)) != []
        ensures CarriesEarliest(Group(logins, board, Half(q, false)), board, q)
      {
        ShortQueueCarriesEarliest(logins, board, q);
      }
    } else {
      LongQueueLosesPosition(n);
    }
  }
}
