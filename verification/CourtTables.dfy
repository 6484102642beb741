/**
 The court tables and the transactions that update them row by row, each proved
 to perform exactly the atomic step of CourtModel.

 `club`, `lines` and `playing` are ghost: the club the rows stand for, each
 court's queue rows in order, and each court's active session row.
 */
module CourtTables {
  import opened Wrappers
  import opened CourtModel
  import opened CourtInvariant
  import opened EngineCatchUp
  import R = Renumber

  type RowId = R.RowId

  datatype CourtRow = CourtRow(closed: bool, window: Option<Window>)

  datatype SessionRow = SessionRow(court: int, session: Session, active: bool)

  datatype QueueRow = QueueRow(court: int, position: int, players: set<PassId>)

  ghost predicate CourtsLinked(count: nat, courts: map<int, CourtRow>, club: Club) {
    && count == club.count
    && courts.Keys == club.courts.Keys
    && (forall c :: c in courts ==> courts[c] == CourtRow(club.courts[c].closed, club.courts[c].window))
  }

  ghost predicate SessionsLinked(sessions: map<RowId, SessionRow>, club: Club, playing: map<int, RowId>) {
    && (forall c :: c in playing ==>
          && c in club.courts && playing[c] in sessions
          && sessions[playing[c]].active && sessions[playing[c]].court == c
          && club.courts[c].session == Some(sessions[playing[c]].session))
    && (forall c :: c in club.courts && c !in playing ==> club.courts[c].session == None)
    && (forall s :: s in sessions && sessions[s].active ==>
          sessions[s].court in playing && playing[sessions[s].court] == s)
  }

  ghost predicate QueuesLinked(queues: map<RowId, QueueRow>, club: Club, lines: map<int, seq<RowId>>) {
    && lines.Keys == club.courts.Keys
    && (forall c :: c in lines ==> |lines[c]| == |club.courts[c].queue|)
    && (forall c, i :: c in lines && 0 <= i < |lines[c]| ==>
          lines[c][i] in queues && queues[lines[c][i]] == QueueRow(c, i + 1, club.courts[c].queue[i]))
    && (forall q :: q in queues ==>
          && queues[q].court in lines && 1 <= queues[q].position <= |lines[queues[q].court]|
          && lines[queues[q].court][queues[q].position - 1] == q)
  }

  ghost predicate IdsBelow(sessions: map<RowId, SessionRow>, queues: map<RowId, QueueRow>, n: RowId) {
    && (forall s :: s in sessions ==> s < n)
    && (forall q :: q in queues ==> q < n)
  }

  /** A transaction did exactly the atomic step, or refused exactly when the step does. */
  ghost predicate Does(before: Club, req: Request, r: Reads, after: Club, res: Result<Note, Refusal>) {
    match Step(before, req, r)
    case Refused(reason) => after == before && res == Err(reason)
    case Committed(value, note) => after == value && res == Ok(note)
  }

  function CourtPositions(queues: map<RowId, QueueRow>, c: int): R.Positions {
    map q | q in queues && queues[q].court == c :: queues[q].position
  }

  ghost function WithCourt(club: Club, c: int, ct: Court): Club {
    club.(courts := club.courts[c := ct])
  }

  // ---- how one statement keeps the link -------------------------------------

  lemma SessionsUnaffected(sessions: map<RowId, SessionRow>, club: Club, playing: map<int, RowId>, c: int, ct: Court)
    requires SessionsLinked(sessions, club, playing) && c in club.courts && ct.session == club.courts[c].session
    ensures SessionsLinked(sessions, WithCourt(club, c, ct), playing)
  {
  }

  lemma QueuesUnaffected(queues: map<RowId, QueueRow>, club: Club, lines: map<int, seq<RowId>>, c: int, ct: Court)
    requires QueuesLinked(queues, club, lines) && c in club.courts && ct.queue == club.courts[c].queue
    ensures QueuesLinked(queues, WithCourt(club, c, ct), lines)
  {
  }

  lemma SessionWritten(sessions: map<RowId, SessionRow>, club: Club, playing: map<int, RowId>, c: int, s: RowId,
                       session: Session)
    requires SessionsLinked(sessions, club, playing) && c in club.courts
    requires if c in playing then s == playing[c] else s !in sessions
    ensures SessionsLinked(sessions[s := SessionRow(c, session, true)],
                           WithCourt(club, c, club.courts[c].(session := Some(session))), playing[c := s])
  {
  }

  lemma OneMorePass(players: set<PassId>, hs: seq<Holder>, i: nat)
    requires i < |hs|
    ensures players + Passes(hs[..i + 1]) == players + Passes(hs[..i]) + {hs[i].pass}
  {
  }

  lemma {:induction false} FirstUsableIs(queue: seq<set<PassId>>, usable: set<PassId>, k: nat)
    requires k <= |queue| && (forall i :: 0 <= i < k ==> !(queue[i] <= usable)) && (k < |queue| ==> queue[k] <= usable)
    ensures FirstUsable(queue, usable) == k
  {
  }

  lemma NotPlaying(sessions: map<RowId, SessionRow>, club: Club, playing: map<int, RowId>, c: int)
    requires SessionsLinked(sessions, club, playing)
    requires forall i :: i in sessions && sessions[i].active ==> sessions[i].court != c
    ensures c !in playing
  {
  }

  lemma PlayingRow(sessions: map<RowId, SessionRow>, club: Club, playing: map<int, RowId>, s: RowId)
    requires SessionsLinked(sessions, club, playing) && s in sessions && sessions[s].active
    ensures var c := sessions[s].court;
            && c in club.courts && c in playing && playing[c] == s && club.courts[c].session == Some(sessions[s].session)
  {
  }

  lemma SessionEnded(sessions: map<RowId, SessionRow>, club: Club, playing: map<int, RowId>, c: int)
    requires SessionsLinked(sessions, club, playing) && c in playing
    ensures SessionsLinked(sessions[playing[c] := sessions[playing[c]].(active := false)],
                           WithCourt(club, c, club.courts[c].(session := None)), playing - {c})
  {
  }

  /** Rewriting one court's queue rows so that they stand for `queue` in the order `line`. */
  lemma QueueWritten(queues: map<RowId, QueueRow>, queues': map<RowId, QueueRow>, club: Club,
                     lines: map<int, seq<RowId>>,
                     c: int, line: seq<RowId>, queue: seq<set<PassId>>)
    requires QueuesLinked(queues, club, lines) && c in club.courts && |line| == |queue|
    requires forall q :: q in queues && queues[q].court != c ==> q in queues' && queues'[q] == queues[q]
    requires forall q :: q in queues' && queues'[q].court != c ==> q in queues && queues'[q] == queues[q]
    requires forall i :: 0 <= i < |line| ==> line[i] in queues' && queues'[line[i]] == QueueRow(c, i + 1, queue[i])
    requires forall q :: q in queues' && queues'[q].court == c ==>
                           1 <= queues'[q].position <= |line| && line[queues'[q].position - 1] == q
    ensures QueuesLinked(queues', WithCourt(club, c, club.courts[c].(queue := queue)), lines[c := line])
  {
    var club', lines' := WithCourt(club, c, club.courts[c].(queue := queue)), lines[c := line];
    forall d, i | d in lines' && 0 <= i < |lines'[d]|
      ensures lines'[d][i] in queues' && queues'[lines'[d][i]] == QueueRow(d, i + 1, club'.courts[d].queue[i])
    {
      if d != c {
        assert lines'[d] == lines[d];
        assert queues[lines[d][i]].court == d;
      }
    }
    forall q | q in queues'
      ensures queues'[q].court in lines' && 1 <= queues'[q].position <= |lines'[queues'[q].court]|
      ensures lines'[queues'[q].court][queues'[q].position - 1] == q
    {
    }
  }

  lemma QueueRowLinked(queues: map<RowId, QueueRow>, club: Club, lines: map<int, seq<RowId>>, q: RowId)
    requires QueuesLinked(queues, club, lines) && q in queues
    ensures var c, i := queues[q].court, queues[q].position - 1;
            && c in lines && c in club.courts && 0 <= i < |club.courts[c].queue|
            && |lines[c]| == |club.courts[c].queue| && lines[c][i] == q && queues[q].players == club.courts[c].queue[i]
  {
  }

  lemma GroupInserted(queues: map<RowId, QueueRow>, club: Club, lines: map<int, seq<RowId>>,
                      c: int, id: RowId, players: set<PassId>)
    requires QueuesLinked(queues, club, lines) && c in club.courts && id !in queues
    ensures c in lines
    ensures QueuesLinked(queues[id := QueueRow(c, |club.courts[c].queue| + 1, players)],
                         WithCourt(club, c, club.courts[c].(queue := club.courts[c].queue + [players])),
                         lines[c := lines[c] + [id]])
  {
  }

  lemma GroupUpdated(queues: map<RowId, QueueRow>, club: Club, lines: map<int, seq<RowId>>, q: RowId,
                     players: set<PassId>)
    requires QueuesLinked(queues, club, lines) && q in queues
    ensures var c, i := queues[q].court, queues[q].position - 1;
            && c in club.courts && 0 <= i < |club.courts[c].queue|
            && QueuesLinked(queues[q := queues[q].(players := players)],
                            WithCourt(club, c, club.courts[c].(queue := club.courts[c].queue[i := players])), lines)
  {
  }

  /** UPDATE ... SET position = -position, then SET position = rank, on one court's rows. */
  function Renumbered(queues: map<RowId, QueueRow>, c: int): map<RowId, QueueRow> {
    var ranked := R.Ranked(R.Negated(CourtPositions(queues, c)));
    map x | x in queues :: if queues[x].court == c then queues[x].(position := ranked[x]) else queues[x]
  }

  lemma RenumberedMeans(queues: map<RowId, QueueRow>, c: int)
    ensures var ranked := R.Ranked(R.Negated(CourtPositions(queues, c)));
            && (forall x :: x in ranked <==> x in queues && queues[x].court == c)
            && (forall x :: x in Renumbered(queues, c) <==> x in queues)
            && (forall x :: x in queues ==>
                  Renumbered(queues, c)[x] == if x in ranked then queues[x].(position := ranked[x]) else queues[x])
  {
  }

  function RanksOf(queues: map<RowId, QueueRow>, c: int): R.Positions {
    R.Ranked(R.Negated(CourtPositions(queues, c)))
  }

  /** The ranks left after deleting row i of the line are dense and in order. */
  lemma RanksAfterDelete(queues: map<RowId, QueueRow>, c: int, line: seq<RowId>, i: nat)
    requires R.InOrder(CourtPositions(queues, c), line) && i < |line|
    ensures R.InOrder(RanksOf(queues - {line[i]}, c), R.Without(line, i))
  {
    R.RankRestoresOrder(CourtPositions(queues, c), line, i);
    assert CourtPositions(queues - {line[i]}, c) == CourtPositions(queues, c) - {line[i]};
  }

  /** Court c's rows are those of `line` with their place in it as position, otherwise as before. */
  ghost predicate Standing(rows: map<RowId, QueueRow>, rows': map<RowId, QueueRow>, c: int, line: seq<RowId>) {
    && (forall j :: 0 <= j < |line| ==>
          line[j] in rows && line[j] in rows' && rows'[line[j]] == rows[line[j]].(position := j + 1))
    && (forall x :: x in rows' && rows'[x].court == c ==>
          1 <= rows'[x].position <= |line| && line[rows'[x].position - 1] == x)
  }

  ghost predicate OthersKept(rows: map<RowId, QueueRow>, rows': map<RowId, QueueRow>, c: int) {
    && (forall x :: x in rows && rows[x].court != c ==> x in rows' && rows'[x] == rows[x])
    && (forall x :: x in rows' && rows'[x].court != c ==> x in rows && rows'[x] == rows[x])
  }

  /** The rows of `line`, put at their place in it, are the groups of `queue`. */
  ghost predicate StandFor(rows: map<RowId, QueueRow>, c: int, line: seq<RowId>, queue: seq<set<PassId>>) {
    && |line| == |queue|
    && forall j :: 0 <= j < |line| ==>
         line[j] in rows && rows[line[j]].(position := j + 1) == QueueRow(c, j + 1, queue[j])
  }

  lemma RowsRenumbered(queues: map<RowId, QueueRow>, c: int, left: seq<RowId>)
    requires R.InOrder(RanksOf(queues, c), left)
    ensures Standing(queues, Renumbered(queues, c), c, left)
  {
    RenumberedMeans(queues, c);
    hide Renumbered, R.Ranked, R.Negated, CourtPositions;
  }

  lemma OtherRowsKept(queues: map<RowId, QueueRow>, c: int, q: RowId)
    requires q in queues && queues[q].court == c
    ensures OthersKept(queues, Renumbered(queues - {q}, c), c)
  {
  }

  lemma RemainingRows(queues: map<RowId, QueueRow>, club: Club, lines: map<int, seq<RowId>>, c: int, i: nat)
    requires QueuesLinked(queues, club, lines) && c in lines && i < |lines[c]|
    ensures R.InOrder(CourtPositions(queues, c), lines[c])
    ensures StandFor(queues, c, R.Without(lines[c], i), club.courts[c].queue[..i] + club.courts[c].queue[i + 1..])
  {
  }

  /** Rows that only got their rank as position stand for the remaining groups. */
  lemma QueueRelinked(queues: map<RowId, QueueRow>, q: RowId, queues': map<RowId, QueueRow>, club: Club,
                      lines: map<int, seq<RowId>>, c: int, left: seq<RowId>, queue: seq<set<PassId>>)
    requires QueuesLinked(queues, club, lines) && c in club.courts
    requires OthersKept(queues, queues', c) && Standing(queues - {q}, queues', c, left) && StandFor(queues, c, left, queue)
    ensures QueuesLinked(queues', WithCourt(club, c, club.courts[c].(queue := queue)), lines[c := left])
  {
    hide QueuesLinked;
    QueueWritten(queues, queues', club, lines, c, left, queue);
  }

  lemma GroupRemoved(queues: map<RowId, QueueRow>, club: Club, lines: map<int, seq<RowId>>, c: int, i: nat)
    requires QueuesLinked(queues, club, lines) && c in club.courts
    requires c in lines && i < |club.courts[c].queue| == |lines[c]|
    ensures QueuesLinked(Renumbered(queues - {lines[c][i]}, c),
                         WithCourt(club, c, club.courts[c].(queue := club.courts[c].queue[..i] + club.courts[c].queue[i + 1..])),
                         lines[c := R.Without(lines[c], i)])
  {
    var q := lines[c][i];
    assert q in queues && queues[q].court == c;
    hide *;
    RemainingRows(queues, club, lines, c, i);
    RanksAfterDelete(queues, c, lines[c], i);
    RowsRenumbered(queues - {q}, c, R.Without(lines[c], i));
    OtherRowsKept(queues, c, q);
    QueueRelinked(queues, q, Renumbered(queues - {q}, c), club, lines, c, R.Without(lines[c], i),
                  club.courts[c].queue[..i] + club.courts[c].queue[i + 1..]);
  }

  function PassesQueued(queues: map<RowId, QueueRow>, c: int): set<PassId> {
    set x, q | q in queues && queues[q].court == c && x in queues[q].players :: x
  }

  lemma QueuedPasses(queues: map<RowId, QueueRow>, club: Club, lines: map<int, seq<RowId>>, c: int)
    requires QueuesLinked(queues, club, lines)
    ensures PassesQueued(queues, c) == if c in club.courts then Everyone(club.courts[c].queue) else {}
  {
  }

  lemma GroupOfIs(ct: Court, x: PassId, i: nat)
    requires Tidy(ct) && i < |ct.queue| && x in ct.queue[i]
    ensures GroupOf(ct.queue, x) == i
  {
  }

  lemma QueueCounted(queues: map<RowId, QueueRow>, club: Club, lines: map<int, seq<RowId>>, c: int)
    requires QueuesLinked(queues, club, lines) && c in club.courts
    ensures |set q | q in queues && queues[q].court == c| == |club.courts[c].queue|
  {
    R.DistinctCount(lines[c]);
    assert (set q | q in queues && queues[q].court == c) == R.Rows(lines[c]);
  }

  lemma QueueCleared(queues: map<RowId, QueueRow>, club: Club, lines: map<int, seq<RowId>>, c: int)
    requires QueuesLinked(queues, club, lines) && c in club.courts
    ensures QueuesLinked(map q | q in queues && queues[q].court != c :: queues[q],
                         WithCourt(club, c, club.courts[c].(queue := [])), lines[c := []])
  {
  }

  /** Keep rows 1..n and insert the missing ones. */
  function CourtRowsTo(courts: map<int, CourtRow>, n: nat): map<int, CourtRow> {
    map c | c in NewClub(n).courts :: if c in courts then courts[c] else CourtRow(false, None)
  }

  function QueueRowsTo(queues: map<RowId, QueueRow>, n: nat): map<RowId, QueueRow> {
    map q | q in queues && queues[q].court <= n :: queues[q]
  }

  function LinesTo(lines: map<int, seq<RowId>>, n: nat): map<int, seq<RowId>> {
    map c | c in NewClub(n).courts :: if c in lines then lines[c] else []
  }

  lemma RowsResized(count: nat, courts: map<int, CourtRow>, club: Club, n: nat)
    requires CourtsLinked(count, courts, club)
    ensures CourtsLinked(n, CourtRowsTo(courts, n), ResizeTo(club, n))
  {
  }

  lemma SessionsResized(sessions: map<RowId, SessionRow>, club: Club, playing: map<int, RowId>, n: nat)
    requires SessionsLinked(sessions, club, playing) && WellFormed(club)
    requires forall c :: c in club.courts && c > n ==> club.courts[c].session.None?
    ensures SessionsLinked(sessions, ResizeTo(club, n), playing)
  {
  }

  lemma QueuesResized(queues: map<RowId, QueueRow>, club: Club, lines: map<int, seq<RowId>>, n: nat)
    requires QueuesLinked(queues, club, lines) && WellFormed(club)
    ensures QueuesLinked(QueueRowsTo(queues, n), ResizeTo(club, n), LinesTo(lines, n))
  {
  }

  lemma IdsResized(sessions: map<RowId, SessionRow>, queues: map<RowId, QueueRow>, nextId: RowId, n: nat)
    requires IdsBelow(sessions, queues, nextId)
    ensures IdsBelow(sessions, QueueRowsTo(queues, n), nextId)
  {
  }

  function OverdueCourts(sessions: map<RowId, SessionRow>, now: int): set<int> {
    set s | s in sessions && sessions[s].active && sessions[s].session.endsAt <= now :: sessions[s].court
  }

  lemma OverdueFound(sessions: map<RowId, SessionRow>, club: Club, playing: map<int, RowId>, now: int)
    requires SessionsLinked(sessions, club, playing)
    ensures forall c :: c in club.courts && Overdue(club.courts[c], now) <==> c in OverdueCourts(sessions, now)
  {
  }

  lemma AnotherExpiry(club: Club, cs: seq<int>, c: int, r: Reads)
    ensures Run(club, ExpireCalls(cs + [c], r)) == After(Run(club, ExpireCalls(cs, r)), Call(Expire(c), r))
  {
    assert ExpireCalls(cs + [c], r)[..|cs|] == ExpireCalls(cs, r);
  }

  lemma Overwrite(club: Club, c: int, first: Court, second: Court)
    ensures WithCourt(WithCourt(club, c, first), c, second) == WithCourt(club, c, second)
  {
  }

  lemma LeaveCourtEffect(club: Club, c: int, party: Party, r: Reads)
    requires Step(club, LeaveCourt(c, party), r).Committed?
    ensures var ct := club.courts[c];
            var s, p := ct.session.value, PromoteNext(ct, r);
            Step(club, LeaveCourt(c, party), r) ==
              if |s.players| - |party.holders| == 2 then
                Committed(WithCourt(club, c, ct.(session := Some(s.(players := s.players - Passes(party.holders))))),
                          LeftCourt(false, false))
              else
                Committed(WithCourt(club, c, if p.moved then p.court else p.court.(session := None)), LeftCourt(true, p.moved))
  {
  }

  lemma LeaveQueueEffect(club: Club, c: int, party: Party, r: Reads)
    requires Step(club, LeaveQueue(c, party), r).Committed?
    ensures var ct, hs := club.courts[c], party.holders;
            var g := GroupOf(ct.queue, hs[0].pass);
            Step(club, LeaveQueue(c, party), r) ==
              if |ct.queue[g]| == |hs| then
                Committed(WithCourt(club, c, ct.(queue := ct.queue[..g] + ct.queue[g + 1..])), LeftQueue(true))
              else
                Committed(WithCourt(club, c, ct.(queue := ct.queue[g := ct.queue[g] - Passes(hs)])), LeftQueue(false))
  {
  }

  class ClubTables {
    var count: nat
    var courts: map<int, CourtRow>
    var sessions: map<RowId, SessionRow>
    var queues: map<RowId, QueueRow>
    var nextId: RowId

    ghost var club: Club
    ghost var lines: map<int, seq<RowId>>
    ghost var playing: map<int, RowId>

    ghost predicate Linked()
      reads this
    {
      && CourtsLinked(count, courts, club)
      && SessionsLinked(sessions, club, playing)
      && QueuesLinked(queues, club, lines)
      && IdsBelow(sessions, queues, nextId)
    }

    ghost predicate Valid()
      reads this
    {
      Linked() && WellFormed(club)
    }

    constructor (n: nat)
      ensures Valid() && club == NewClub(n)
    {
      count, courts := n, map c | c in NewClub(n).courts :: CourtRow(false, None);
      sessions, queues, nextId := map[], map[], 0;
      club, playing := NewClub(n), map[];
      lines := map c | c in NewClub(n).courts :: [];
    }

    // ---- single statements --------------------------------------------------

    method FindSession(c: int) returns (s: Option<RowId>)
      requires Linked()
      ensures s.Some? <==> c in playing
      ensures s.Some? ==> s.value == playing[c]
    {
      if i :| i in sessions && sessions[i].active && sessions[i].court == c {
        return Some(i);
      }
      return None;
    }

    method MarkDone(s: RowId)
      requires Linked() && s in sessions && sessions[s].active
      modifies this
      ensures Linked() && courts == old(courts) && queues == old(queues)
      ensures playing == old(playing) - {old(sessions)[s].court}
      ensures var c := old(sessions)[s].court;
              club == WithCourt(old(club), c, old(club).courts[c].(session := None))
    {
      ghost var c := sessions[s].court;
      hide SessionsLinked, QueuesLinked;
      PlayingRow(sessions, club, playing, s);
      ghost var ct := club.courts[c].(session := None);
      SessionEnded(sessions, club, playing, c);
      QueuesUnaffected(queues, club, lines, c, ct);
      sessions := sessions[s := sessions[s].(active := false)];
      playing, club := playing - {c}, WithCourt(club, c, ct);
    }

    /** The unique index (one active session per court) is the last precondition: it always holds here. */
    method InsertSession(c: int, session: Session) returns (s: RowId)
      requires Linked() && c in courts
      requires forall i :: i in sessions && sessions[i].active ==> sessions[i].court != c
      modifies this
      ensures Linked() && courts == old(courts) && queues == old(queues)
      ensures playing == old(playing)[c := s] && s in sessions && sessions[s] == SessionRow(c, session, true)
      ensures club == WithCourt(old(club), c, old(club).courts[c].(session := Some(session)))
    {
      hide SessionsLinked, QueuesLinked;
      NotPlaying(sessions, club, playing, c);
      ghost var ct := club.courts[c].(session := Some(session));
      SessionWritten(sessions, club, playing, c, nextId, session);
      QueuesUnaffected(queues, club, lines, c, ct);
      s := nextId;
      nextId := nextId + 1;
      sessions := sessions[s := SessionRow(c, session, true)];
      playing, club := playing[c := s], WithCourt(club, c, ct);
    }

    method UpdateSession(s: RowId, session: Session)
      requires Linked() && s in sessions && sessions[s].active
      modifies this
      ensures Linked() && courts == old(courts) && queues == old(queues)
      ensures playing == old(playing) && s in sessions && sessions[s] == old(sessions)[s].(session := session)
      ensures var c := old(sessions)[s].court;
              club == WithCourt(old(club), c, old(club).courts[c].(session := Some(session)))
    {
      ghost var c := sessions[s].court;
      hide SessionsLinked, QueuesLinked;
      PlayingRow(sessions, club, playing, s);
      ghost var ct := club.courts[c].(session := Some(session));
      SessionWritten(sessions, club, playing, c, s, session);
      QueuesUnaffected(queues, club, lines, c, ct);
      sessions := sessions[s := sessions[s].(session := session)];
      club := WithCourt(club, c, ct);
      assert playing[c := s] == playing;
    }

    method NextPosition(c: int) returns (position: int)
      requires Linked() && c in courts
      ensures position == |club.courts[c].queue| + 1
    {
      ghost var line := lines[c];
      if line != [] {
        assert line[|line| - 1] in queues;
      }
      if last :| last in queues && queues[last].court == c
                 && forall q :: q in queues && queues[q].court == c ==> queues[q].position <= queues[last].position {
        return queues[last].position + 1;
      }
      return 1;
    }

    method InsertQueueGroup(c: int, players: set<PassId>) returns (position: int)
      requires Linked() && c in courts
      modifies this
      ensures Linked() && courts == old(courts) && playing == old(playing) && sessions == old(sessions)
      ensures position == |old(club).courts[c].queue| + 1
      ensures var ct := old(club).courts[c]; club == WithCourt(old(club), c, ct.(queue := ct.queue + [players]))
    {
      hide SessionsLinked, QueuesLinked;
      position := NextPosition(c);
      ghost var ct := club.courts[c].(queue := club.courts[c].queue + [players]);
      SessionsUnaffected(sessions, club, playing, c, ct);
      GroupInserted(queues, club, lines, c, nextId, players);
      queues := queues[nextId := QueueRow(c, position, players)];
      lines, club := lines[c := lines[c] + [nextId]], WithCourt(club, c, ct);
      nextId := nextId + 1;
    }

    method UpdateQueuePlayers(q: RowId, players: set<PassId>)
      requires Linked() && q in queues
      modifies this
      ensures Linked() && courts == old(courts) && playing == old(playing) && sessions == old(sessions)
      ensures var row := old(queues)[q]; var ct := old(club).courts[row.court];
              club == WithCourt(old(club), row.court, ct.(queue := ct.queue[row.position - 1 := players]))
    {
      hide SessionsLinked, QueuesLinked;
      GroupUpdated(queues, club, lines, q, players);
      ghost var c, i := queues[q].court, queues[q].position - 1;
      ghost var ct := club.courts[c].(queue := club.courts[c].queue[i := players]);
      SessionsUnaffected(sessions, club, playing, c, ct);
      queues := queues[q := queues[q].(players := players)];
      club := WithCourt(club, c, ct);
    }

    /** Delete one group, negate the court's positions, rank them again. */
    method RemoveQueueGroup(c: int, q: RowId)
      requires Linked() && q in queues && queues[q].court == c
      modifies this
      ensures Linked() && courts == old(courts) && playing == old(playing) && sessions == old(sessions)
      ensures var i := old(queues)[q].position - 1; var ct := old(club).courts[c];
              club == WithCourt(old(club), c, ct.(queue := ct.queue[..i] + ct.queue[i + 1..]))
    {
      hide SessionsLinked, QueuesLinked;
      QueueRowLinked(queues, club, lines, q);
      ghost var i := queues[q].position - 1;
      GroupRemoved(queues, club, lines, c, i);
      ghost var ct := club.courts[c].(queue := club.courts[c].queue[..i] + club.courts[c].queue[i + 1..]);
      SessionsUnaffected(sessions, club, playing, c, ct);
      queues := Renumbered(queues - {q}, c);
      lines, club := lines[c := R.Without(lines[c], i)], WithCourt(club, c, ct);
    }

    method CountQueue(c: int) returns (n: nat)
      requires Linked() && c in courts
      ensures n == |club.courts[c].queue|
    {
      hide SessionsLinked, QueuesLinked;
      n := |set q | q in queues && queues[q].court == c|;
      QueueCounted(queues, club, lines, c);
    }

    method ClearQueue(c: int) returns (released: nat)
      requires Linked() && c in courts
      modifies this
      ensures Linked() && courts == old(courts) && playing == old(playing) && sessions == old(sessions)
      ensures released == |old(club).courts[c].queue|
      ensures club == WithCourt(old(club), c, old(club).courts[c].(queue := []))
    {
      hide SessionsLinked, QueuesLinked;
      released := CountQueue(c);
      ghost var ct := club.courts[c].(queue := []);
      SessionsUnaffected(sessions, club, playing, c, ct);
      QueueCleared(queues, club, lines, c);
      queues := map q | q in queues && queues[q].court != c :: queues[q];
      lines, club := lines[c := []], WithCourt(club, c, ct);
    }

    method SetCourtRow(c: int, closed: bool, window: Option<Window>)
      requires Linked() && c in courts
      modifies this
      ensures Linked() && playing == old(playing) && sessions == old(sessions) && queues == old(queues)
      ensures club == WithCourt(old(club), c, old(club).courts[c].(closed := closed, window := window))
      ensures courts == old(courts)[c := CourtRow(closed, window)]
    {
      hide SessionsLinked, QueuesLinked;
      ghost var ct := club.courts[c].(closed := closed, window := window);
      SessionsUnaffected(sessions, club, playing, c, ct);
      QueuesUnaffected(queues, club, lines, c, ct);
      courts := courts[c := CourtRow(closed, window)];
      club := WithCourt(club, c, ct);
    }

    // ---- reading under the court lock ---------------------------------------

    /** The closed flag and the active session row, as every court transaction reads them. */
    method ReadCourt(c: int, now: int) returns (closed: bool, s: Option<RowId>, session: Option<Session>)
      requires Linked() && c in courts
      ensures c in club.courts
      ensures closed == ClosedAt(club.courts[c], now) && session == club.courts[c].session
      ensures s.Some? <==> session.Some?
      ensures s.Some? ==> && s.value in sessions && sessions[s.value] == SessionRow(c, session.value, true)
                          && c in playing && playing[c] == s.value
      ensures s.None? ==> forall i :: i in sessions && sessions[i].active ==> sessions[i].court != c
    {
      var row := courts[c];
      closed := row.closed || (row.window.Some? && row.window.value.from <= now < row.window.value.until);
      s := FindSession(c);
      session := if s.Some? then Some(sessions[s.value].session) else None;
    }

    /** Placement checks for each resolved pass. */
    method CheckPlacement(hs: seq<Holder>) returns (errors: seq<CredError>)
      requires Valid()
      ensures errors == PlacementErrors(club, hs)
    {
      errors := [];
      hide Valid;
      for i := 0 to |hs|
        invariant errors == PlacementErrors(club, hs[..i])
      {
        var found := FindPlacement(hs[i]);
        errors := errors + found;
        assert hs[..i + 1][..i] == hs[..i];
      }
      assert hs[..|hs|] == hs;
    }

    /** One pass: queue first, then court. */
    method FindPlacement(h: Holder) returns (errors: seq<CredError>)
      requires Valid()
      ensures errors == PlacementError(club, h)
    {
      hide SessionsLinked, QueuesLinked, CourtsLinked, IdsBelow, WellFormed, PlacementError;
      if q :| q in queues && h.pass in queues[q].players {
        QueuedRowFound(q, h);
        return [CredError(h.username, InQueue, Some(queues[q].court))];
      }
      if s :| s in sessions && sessions[s].active && h.pass in sessions[s].session.players {
        PlayingRowFound(s, h);
        return [CredError(h.username, OnCourt, Some(sessions[s].court))];
      }
      NoRowFound(h);
      errors := [];
    }

    lemma QueuedRowFound(q: RowId, h: Holder)
      requires Valid() && q in queues && h.pass in queues[q].players
      ensures PlacementError(club, h) == [CredError(h.username, InQueue, Some(queues[q].court))]
    {
      QueueRowLinked(queues, club, lines, q);
      assert QueuedAt(club, queues[q].court, h.pass);
      forall c | QueuedAt(club, c, h.pass) ensures c == queues[q].court {
        assert OnRoster(club.courts[c], h.pass);
      }
    }

    lemma PlayingRowFound(s: RowId, h: Holder)
      requires Valid() && s in sessions && sessions[s].active && h.pass in sessions[s].session.players
      requires forall q :: q in queues ==> h.pass !in queues[q].players
      ensures PlacementError(club, h) == [CredError(h.username, OnCourt, Some(sessions[s].court))]
    {
      NotQueued(h.pass);
      assert PlayingAt(club, sessions[s].court, h.pass);
      forall c | PlayingAt(club, c, h.pass) ensures c == sessions[s].court {
        assert OnRoster(club.courts[c], h.pass);
      }
    }

    lemma NotQueued(x: PassId)
      requires Linked() && forall q :: q in queues ==> x !in queues[q].players
      ensures !QueuedAnywhere(club, x)
    {
    }

    lemma NoRowFound(h: Holder)
      requires Linked() && forall q :: q in queues ==> h.pass !in queues[q].players
      requires forall s :: s in sessions && sessions[s].active ==> h.pass !in sessions[s].session.players
      ensures PlacementError(club, h) == []
    {
    }

    method CheckPresent(c: int, code: CredCode, present: set<PassId>, hs: seq<Holder>) returns (errors: seq<CredError>)
      ensures errors == MissingErrors(c, code, present, hs)
    {
      errors := [];
      for i := 0 to |hs|
        invariant errors == MissingErrors(c, code, present, hs[..i])
      {
        if hs[i].pass !in present {
          errors := errors + [CredError(hs[i].username, code, Some(c))];
        }
        assert hs[..i + 1][..i] == hs[..i];
      }
      assert hs[..|hs|] == hs;
    }

    // ---- kiosk transactions -------------------------------------------------

    method InsertPlayer(s: RowId, x: PassId)
      requires Linked() && s in sessions && sessions[s].active
      modifies this
      ensures Linked() && queues == old(queues) && s in sessions
      ensures var c, session := old(sessions)[s].court, old(sessions)[s].session;
              && sessions[s] == SessionRow(c, session.(players := session.players + {x}), true)
              && club == WithCourt(old(club), c, old(club).courts[c].(session := Some(sessions[s].session)))
    {
      hide SessionsLinked, QueuesLinked, CourtsLinked;
      UpdateSession(s, sessions[s].session.(players := sessions[s].session.players + {x}));
    }

    /** INSERT INTO session_players, one row per player. */
    method InsertPlayers(s: RowId, hs: seq<Holder>)
      requires Linked() && s in sessions && sessions[s].active
      modifies this
      ensures Linked() && queues == old(queues)
      ensures var row := old(sessions)[s];
              && row.court in old(club).courts
              && club == WithCourt(old(club), row.court, old(club).courts[row.court].(session :=
                           Some(row.session.(players := row.session.players + Passes(hs)))))
    {
      ghost var c, session := sessions[s].court, sessions[s].session;
      hide SessionsLinked, QueuesLinked, CourtsLinked, IdsBelow;
      PlayingRow(sessions, club, playing, s);
      assert session.(players := session.players + Passes([])) == session;
      hide Passes;
      for i := 0 to |hs|
        invariant Linked() && s in sessions && queues == old(queues)
        invariant sessions[s] == SessionRow(c, session.(players := session.players + Passes(hs[..i])), true)
        invariant club == WithCourt(old(club), c, old(club).courts[c].(session := Some(sessions[s].session)))
      {
        OneMorePass(session.players, hs, i);
        InsertPlayer(s, hs[i].pass);
      }
      assert hs[..|hs|] == hs;
    }

    method TakeCourt(c: int, party: Party, r: Reads) returns (res: Result<Note, Refusal>)
      requires Valid() && party.Distinct()
      modifies this
      ensures Valid() && Does(old(club), Take(c, party), r, club, res)
    {
      hide SessionsLinked, QueuesLinked, IdsBelow, WellFormed;
      var refusal := CheckTake(c, party, r);
      if refusal.Some? {
        return Err(refusal.value);
      }
      StepKeepsWellFormed(club, Take(c, party), r);
      var id := InsertSession(c, Session({}, r.now, r.now + r.minutes * MINUTE, 0));
      InsertPlayers(id, party.holders);
      assert {} + Passes(party.holders) == Passes(party.holders);
      assert club == Step(old(club), Take(c, party), r).value;
      res := Ok(Started);
    }

    /** Everything take_court checks before it writes. */
    method CheckTake(c: int, party: Party, r: Reads) returns (refusal: Option<Refusal>)
      requires Valid()
      ensures refusal.Some? ==> Step(club, Take(c, party), r) == Refused(refusal.value)
      ensures refusal.None? ==> Step(club, Take(c, party), r).Committed? && NoSessionOn(c)
    {
      hide SessionsLinked, QueuesLinked, IdsBelow, WellFormed;
      if party.Size() != 2 && party.Size() != 4 {
        return Some(BadGroupSize);
      }
      if c !in courts {
        return Some(NoSuchCourt);
      }
      var closed, s, session := ReadCourt(c, r.now);
      if closed {
        return Some(CourtClosed);
      }
      if session.Some? && session.value.endsAt <= r.now {
        return Some(FinishingUp);
      }
      if session.Some? {
        return Some(InPlay);
      }
      var placed := CheckPlacement(party.holders);
      var errors := party.errors + placed;
      refusal := if errors != [] then Some(Validation(errors)) else None;
    }

    ghost predicate NoSessionOn(c: int)
      reads this
    {
      c in courts && forall i :: i in sessions && sessions[i].active ==> sessions[i].court != c
    }

    /** Row s is court c's active session. */
    ghost predicate PlaysOn(s: RowId, c: int)
      reads this
    {
      && c in courts && c in club.courts && c in playing && playing[c] == s
      && s in sessions && sessions[s].active && sessions[s].court == c
      && club.courts[c].session == Some(sessions[s].session)
    }

    method JoinCourt(c: int, party: Party, r: Reads) returns (res: Result<Note, Refusal>)
      requires Valid() && party.Distinct()
      modifies this
      ensures Valid() && Does(old(club), Join(c, party), r, club, res)
    {
      hide SessionsLinked, QueuesLinked, IdsBelow, WellFormed;
      var refusal, s := CheckJoin(c, party, r);
      if refusal.Some? {
        return Err(refusal.value);
      }
      StepKeepsWellFormed(club, Join(c, party), r);
      InsertPlayers(s, party.holders);
      assert club == Step(old(club), Join(c, party), r).value;
      res := Ok(Joined);
    }

    method CheckJoin(c: int, party: Party, r: Reads) returns (refusal: Option<Refusal>, s: RowId)
      requires Valid()
      ensures refusal.Some? ==> Step(club, Join(c, party), r) == Refused(refusal.value)
      ensures refusal.None? ==> Step(club, Join(c, party), r).Committed? && PlaysOn(s, c)
    {
      hide SessionsLinked, QueuesLinked, IdsBelow, WellFormed;
      s := 0;
      if party.Size() != 2 {
        return Some(BadGroupSize), s;
      }
      if c !in courts {
        return Some(NoSuchCourt), s;
      }
      var closed, row, session := ReadCourt(c, r.now);
      if closed {
        return Some(CourtClosed), s;
      }
      if session.None? {
        return Some(CourtFree), s;
      }
      if session.value.endsAt <= r.now {
        return Some(FinishingUp), s;
      }
      if |session.value.players| != 2 {
        return Some(NoHalfGame), s;
      }
      var placed := CheckPlacement(party.holders);
      var errors := party.errors + placed;
      refusal, s := if errors != [] then Some(Validation(errors)) else None, row.value;
    }

    method QueueCourt(c: int, party: Party, r: Reads) returns (res: Result<Note, Refusal>)
      requires Valid() && party.Distinct()
      modifies this
      ensures Valid() && Does(old(club), Enqueue(c, party), r, club, res)
    {
      hide SessionsLinked, QueuesLinked, IdsBelow, WellFormed;
      var refusal := CheckEnqueue(c, party, r);
      if refusal.Some? {
        return Err(refusal.value);
      }
      StepKeepsWellFormed(club, Enqueue(c, party), r);
      var position := InsertQueueGroup(c, Passes(party.holders));
      assert club == Step(old(club), Enqueue(c, party), r).value;
      res := Ok(Queued(position));
    }

    method CheckEnqueue(c: int, party: Party, r: Reads) returns (refusal: Option<Refusal>)
      requires Valid()
      ensures refusal.Some? ==> Step(club, Enqueue(c, party), r) == Refused(refusal.value)
      ensures refusal.None? ==> Step(club, Enqueue(c, party), r).Committed? && c in courts
    {
      hide SessionsLinked, QueuesLinked, IdsBelow, WellFormed;
      if party.Size() != 2 && party.Size() != 4 {
        return Some(BadGroupSize);
      }
      if c !in courts {
        return Some(NoSuchCourt);
      }
      var closed, row, session := ReadCourt(c, r.now);
      if closed {
        return Some(CourtClosed);
      }
      if session.None? {
        return Some(CourtFree);
      }
      if |session.value.players| < 4 {
        return Some(OpenSpots);
      }
      var n := CountQueue(c);
      if n >= r.depth {
        return Some(QueueFull);
      }
      var placed := CheckPlacement(party.holders);
      var errors := party.errors + placed;
      refusal := if errors != [] then Some(Validation(errors)) else None;
    }

    // ---- promotion ----------------------------------------------------------

    /** The queue head, or none. */
    method FindHead(c: int) returns (head: Option<RowId>)
      requires Linked() && c in courts && c in club.courts
      ensures head.None? <==> club.courts[c].queue == []
      ensures head.Some? ==> && head.value in queues
                             && queues[head.value] == QueueRow(c, 1, club.courts[c].queue[0])
    {
      if lines[c] != [] {
        assert queues[lines[c][0]] == QueueRow(c, 1, club.courts[c].queue[0]);
      }
      if q :| q in queues && queues[q].court == c
              && forall x :: x in queues && queues[x].court == c ==> queues[q].position <= queues[x].position {
        QueueRowLinked(queues, club, lines, q);
        return Some(q);
      }
      return None;
    }

    /** The walk at the front of promote_next: drop groups until the head is fully usable. */
    method DropUnusable(c: int, s: RowId, usable: set<PassId>) returns (head: Option<RowId>, dropped: nat)
      requires Linked() && PlaysOn(s, c)
      modifies this
      ensures Linked() && PlaysOn(s, c) && sessions[s] == old(sessions)[s]
      ensures dropped == FirstUsable(old(club).courts[c].queue, usable)
      ensures var ct := old(club).courts[c];
              && club == WithCourt(old(club), c, ct.(queue := ct.queue[dropped..]))
              && (head.None? <==> dropped == |ct.queue|)
              && (head.Some? ==> head.value in queues && queues[head.value] == QueueRow(c, 1, ct.queue[dropped]))
    {
      hide SessionsLinked, QueuesLinked, IdsBelow;
      ghost var ct := club.courts[c];
      dropped := 0;
      assert club == WithCourt(club, c, ct.(queue := ct.queue[0..]));
      head := FindHead(c);
      while head.Some? && !(queues[head.value].players <= usable)
        invariant Linked() && PlaysOn(s, c) && sessions[s] == old(sessions)[s] && dropped <= |ct.queue|
        invariant club == WithCourt(old(club), c, ct.(queue := ct.queue[dropped..]))
        invariant head.None? <==> dropped == |ct.queue|
        invariant head.Some? ==> head.value in queues && queues[head.value] == QueueRow(c, 1, ct.queue[dropped])
        invariant forall i :: 0 <= i < dropped ==> !(ct.queue[i] <= usable)
        decreases |ct.queue| - dropped
      {
        RemoveQueueGroup(c, head.value);
        dropped := dropped + 1;
        assert club.courts[c].queue == ct.queue[dropped..];
        head := FindHead(c);
      }
      FirstUsableIs(ct.queue, usable, dropped);
    }

    /** promote_next: drop unusable groups from the front, then move the head if the court is open. */
    method PromoteHead(c: int, s: RowId, closed: bool, r: Reads) returns (moved: bool, dropped: nat)
      requires Linked() && PlaysOn(s, c) && closed == ClosedAt(club.courts[c], r.now)
      modifies this
      ensures Linked() && (!moved ==> PlaysOn(s, c) && sessions[s] == old(sessions)[s])
      ensures var p := PromoteNext(old(club).courts[c], r);
              moved == p.moved && dropped == p.dropped && club == WithCourt(old(club), c, p.court)
    {
      hide SessionsLinked, QueuesLinked, IdsBelow;
      ghost var ct := club.courts[c];
      var head;
      head, dropped := DropUnusable(c, s, r.usable);
      if head.None? || closed {
        return false, dropped;
      }
      ReplaceSession(c, s, Session(queues[head.value].players, r.now, r.now + r.minutes * MINUTE, 0));
      RemoveQueueGroup(c, head.value);
      assert club.courts[c].queue == ct.queue[dropped + 1..];
      return true, dropped;
    }

    /** Mark the old session done, then insert its successor. */
    method ReplaceSession(c: int, s: RowId, session: Session)
      requires Linked() && PlaysOn(s, c)
      modifies this
      ensures Linked() && queues == old(queues) && courts == old(courts)
      ensures club == WithCourt(old(club), c, old(club).courts[c].(session := Some(session)))
    {
      hide SessionsLinked, QueuesLinked;
      MarkDone(s);
      NotPlayingRows(c);
      var next := InsertSession(c, session);
    }

    lemma NotPlayingRows(c: int)
      requires Linked() && c !in playing
      ensures forall i :: i in sessions && sessions[i].active ==> sessions[i].court != c
    {
    }

    // ---- leaving ------------------------------------------------------------

    method LeaveCourt(c: int, party: Party, r: Reads) returns (res: Result<Note, Refusal>)
      requires Valid() && party.Distinct()
      modifies this
      ensures Valid() && Does(old(club), CourtModel.LeaveCourt(c, party), r, club, res)
    {
      hide SessionsLinked, QueuesLinked, IdsBelow, WellFormed;
      ghost var req := CourtModel.LeaveCourt(c, party);
      var refusal, s, closed := CheckLeaveCourt(c, party, r);
      if refusal.Some? {
        return Err(refusal.value);
      }
      StepKeepsWellFormed(club, req, r);
      LeaveCourtEffect(club, c, party, r);
      ghost var p := PromoteNext(club.courts[c], r);
      hide Step, PromoteNext;
      var session := sessions[s].session;
      if |session.players| - |party.holders| == 2 {
        UpdateSession(s, session.(players := session.players - Passes(party.holders)));
        res := Ok(LeftCourt(false, false));
      } else {
        var moved, dropped := PromoteHead(c, s, closed, r);
        if !moved {
          MarkDone(s);
          Overwrite(old(club), c, p.court, p.court.(session := None));
        }
        res := Ok(LeftCourt(true, moved));
      }
    }

    method CheckLeaveCourt(c: int, party: Party, r: Reads) returns (refusal: Option<Refusal>, s: RowId, closed: bool)
      requires Valid()
      ensures refusal.Some? ==> Step(club, CourtModel.LeaveCourt(c, party), r) == Refused(refusal.value)
      ensures refusal.None? ==>
                && Step(club, CourtModel.LeaveCourt(c, party), r).Committed?
                && PlaysOn(s, c) && closed == ClosedAt(club.courts[c], r.now)
    {
      hide SessionsLinked, QueuesLinked, IdsBelow, WellFormed;
      s, closed := 0, true;
      if party.Size() != 2 && party.Size() != 4 {
        return Some(BadGroupSize), s, closed;
      }
      if c !in courts {
        return Some(NoGame), s, closed;
      }
      var row, session;
      closed, row, session := ReadCourt(c, r.now);
      if session.None? {
        return Some(NoGame), s, closed;
      }
      if session.value.endsAt <= r.now {
        return Some(FinishingUp), s, closed;
      }
      var missing := CheckPresent(c, NotOnCourt, session.value.players, party.holders);
      var errors := party.errors + missing;
      if errors != [] {
        return Some(Validation(errors)), s, closed;
      }
      var remainder := |session.value.players| - |party.holders|;
      refusal, s := if remainder != 0 && remainder != 2 then Some(OneOrThree) else None, row.value;
    }

    method LeaveQueue(c: int, party: Party, r: Reads) returns (res: Result<Note, Refusal>)
      requires Valid() && party.Distinct()
      modifies this
      ensures Valid() && Does(old(club), CourtModel.LeaveQueue(c, party), r, club, res)
    {
      hide SessionsLinked, QueuesLinked, IdsBelow, WellFormed;
      ghost var req := CourtModel.LeaveQueue(c, party);
      var refusal, q := CheckLeaveQueue(c, party, r);
      if refusal.Some? {
        return Err(refusal.value);
      }
      StepKeepsWellFormed(club, req, r);
      LeaveQueueEffect(club, c, party, r);
      hide Step;
      var group := queues[q].players;
      if |group| == |party.holders| {
        RemoveQueueGroup(c, q);
        res := Ok(LeftQueue(true));
      } else {
        UpdateQueuePlayers(q, group - Passes(party.holders));
        res := Ok(LeftQueue(false));
      }
    }

    /** The pass's queue group on this court. */
    method FindGroup(c: int, x: PassId) returns (q: RowId)
      requires Valid() && x in PassesQueued(queues, c)
      ensures c in courts && c in club.courts && q in queues && queues[q].court == c
      ensures queues[q].position - 1 == GroupOf(club.courts[c].queue, x) < |club.courts[c].queue|
      ensures queues[q].players == club.courts[c].queue[queues[q].position - 1]
    {
      hide SessionsLinked, QueuesLinked, IdsBelow;
      q :| q in queues && queues[q].court == c && x in queues[q].players;
      QueueRowLinked(queues, club, lines, q);
      GroupOfIs(club.courts[c], x, queues[q].position - 1);
    }

    method CheckLeaveQueue(c: int, party: Party, r: Reads) returns (refusal: Option<Refusal>, q: RowId)
      requires Valid()
      ensures refusal.Some? ==> Step(club, CourtModel.LeaveQueue(c, party), r) == Refused(refusal.value)
      ensures refusal.None? ==>
                && Step(club, CourtModel.LeaveQueue(c, party), r).Committed?
                && c in courts && q in queues && queues[q].court == c
                && queues[q].position - 1 == GroupOf(club.courts[c].queue, party.holders[0].pass)
                && 1 <= queues[q].position <= |club.courts[c].queue|
                && queues[q].players == club.courts[c].queue[queues[q].position - 1]
    {
      hide SessionsLinked, QueuesLinked, IdsBelow, WellFormed;
      q := 0;
      if party.Size() != 2 && party.Size() != 4 {
        return Some(BadGroupSize), q;
      }
      var present := PassesQueued(queues, c);
      var missing := CheckPresent(c, NotInQueue, present, party.holders);
      var errors := party.errors + missing;
      QueuedPasses(queues, club, lines, c);
      if errors != [] {
        return Some(Validation(errors)), q;
      }
      MissingErrorsComplete(c, NotInQueue, present, party.holders);
      assert party.holders[0].pass in present;
      q := FindGroup(c, party.holders[0].pass);
      if !(Passes(party.holders) <= queues[q].players) {
        return Some(DifferentGroups), q;
      }
      var remainder := |queues[q].players| - |party.holders|;
      refusal := if remainder != 0 && remainder != 2 then Some(OneOrThree) else None;
    }

    // ---- engine and admin transactions --------------------------------------

    method ExpireCourt(c: int, r: Reads) returns (res: Result<Note, Refusal>)
      requires Valid()
      modifies this
      ensures Valid() && Does(old(club), Expire(c), r, club, res)
    {
      hide SessionsLinked, QueuesLinked, IdsBelow, WellFormed;
      if c !in courts {
        return Err(NothingDue);
      }
      var closed, row, session := ReadCourt(c, r.now);
      if session.None? || r.now < session.value.endsAt {
        return Err(NothingDue);
      }
      StepKeepsWellFormed(club, Expire(c), r);
      var s := row.value;
      var moved, dropped := PromoteHead(c, s, closed, r);
      if moved {
        res := Ok(Promoted(dropped));
      } else {
        var all_usable := session.value.players <= r.usable;
        if r.autoExtend && !closed && all_usable {
          UpdateSession(s, session.value.(endsAt := session.value.endsAt + r.minutes * MINUTE,
                                          extensions := session.value.extensions + 1));
          res := Ok(Extended);
        } else {
          MarkDone(s);
          res := Ok(Cleared);
        }
      }
      assert club == Step(old(club), Expire(c), r).value;
    }

    method CloseCourt(c: int, from: int, until: int, r: Reads) returns (res: Result<Note, Refusal>)
      requires Valid()
      modifies this
      ensures Valid() && Does(old(club), Close(c, from, until), r, club, res)
    {
      hide SessionsLinked, QueuesLinked, IdsBelow, WellFormed;
      if until <= from || from < r.now - 5 * MINUTE {
        return Err(BadWindow);
      }
      if c !in courts {
        return Err(NoSuchCourt);
      }
      StepKeepsWellFormed(club, Close(c, from, until), r);
      SetCourtRow(c, false, Some(Window(from, until)));
      var released := 0;
      if from <= r.now {
        released := ClearQueue(c);
      }
      assert club == Step(old(club), Close(c, from, until), r).value;
      res := Ok(Closed(released));
    }

    method ReopenCourt(c: int, r: Reads) returns (res: Result<Note, Refusal>)
      requires Valid()
      modifies this
      ensures Valid() && Does(old(club), Reopen(c), r, club, res)
    {
      hide SessionsLinked, QueuesLinked, IdsBelow, WellFormed;
      if c !in courts {
        return Err(NoSuchCourt);
      }
      StepKeepsWellFormed(club, Reopen(c), r);
      SetCourtRow(c, false, None);
      assert club == Step(old(club), Reopen(c), r).value;
      res := Ok(Reopened);
    }

    /** One court of a closure boundary pass: re-check under the lock, then release its queue. */
    method ReleaseCourt(c: int, r: Reads) returns (res: Result<Note, Refusal>)
      requires Valid()
      modifies this
      ensures Valid() && Does(old(club), Release(c), r, club, res)
    {
      hide SessionsLinked, QueuesLinked, IdsBelow, WellFormed;
      if c !in courts {
        return Err(NoSuchCourt);
      }
      StepKeepsWellFormed(club, Release(c), r);
      var closed, s, session := ReadCourt(c, r.now);
      if closed {
        var released := ClearQueue(c);
      }
      assert club == Step(old(club), Release(c), r).value;
      res := Ok(Released);
    }

    method ResizeCourts(n: nat, r: Reads) returns (res: Result<Note, Refusal>)
      requires Valid()
      modifies this
      ensures Valid() && Does(old(club), Resize(n), r, club, res)
    {
      hide SessionsLinked, QueuesLinked, IdsBelow, CourtsLinked, WellFormed, Step;
      var refused := CheckResize(n, r);
      if refused {
        return Err(GamesInPlay);
      }
      StepKeepsWellFormed(club, Resize(n), r);
      RowsResized(count, courts, club, n);
      SessionsResized(sessions, club, playing, n);
      QueuesResized(queues, club, lines, n);
      IdsResized(sessions, queues, nextId, n);
      hide ResizeTo, CourtRowsTo, QueueRowsTo, LinesTo;
      queues, lines := QueueRowsTo(queues, n), LinesTo(lines, n);
      courts, count := CourtRowsTo(courts, n), n;
      club := ResizeTo(club, n);
      res := Ok(Resized);
    }

    /** Lowering the count is refused while a session is active on a court to be removed. */
    method CheckResize(n: nat, r: Reads) returns (refused: bool)
      requires Valid()
      ensures Step(club, Resize(n), r) == if refused then Refused(GamesInPlay) else Committed(ResizeTo(club, n), Resized)
      ensures !refused ==> forall c :: c in club.courts && c > n ==> club.courts[c].session.None?
      ensures count == club.count
    {
      hide SessionsLinked, QueuesLinked, IdsBelow, WellFormed, ResizeTo;
      GamesAbove(n);
      var inPlay := exists s :: s in sessions && sessions[s].active && sessions[s].court > n;
      refused := n < count && inPlay;
    }

    lemma GamesAbove(n: nat)
      requires Valid()
      ensures (exists s :: s in sessions && sessions[s].active && sessions[s].court > n) <==>
              (exists c :: c in club.courts && c > n && club.courts[c].session.Some?)
      ensures (exists c :: c in club.courts && c > n && club.courts[c].session.Some?) ==> n < count
    {
    }

    // ---- the engine loop ----------------------------------------------------

    /** One engine pass: every court found overdue is resolved under its own lock. */
    method EngineTick(r: Reads) returns (scanned: seq<int>)
      requires Valid()
      modifies this
      ensures Valid() && club == Run(old(club), ExpireCalls(scanned, r))
      ensures forall c :: c in old(club).courts && Overdue(old(club).courts[c], r.now) ==> c in scanned
    {
      hide SessionsLinked, QueuesLinked, IdsBelow, WellFormed;
      var todo := OverdueCourts(sessions, r.now);
      ghost var was := club;
      OverdueFound(sessions, club, playing, r.now);
      scanned := [];
      while todo != {}
        invariant Valid() && club == Run(was, ExpireCalls(scanned, r))
        invariant forall c :: c in was.courts && Overdue(was.courts[c], r.now) ==> c in scanned || c in todo
        decreases todo
      {
        var c :| c in todo;
        var res := ExpireCourt(c, r);
        AnotherExpiry(was, scanned, c, r);
        todo, scanned := todo - {c}, scanned + [c];
      }
    }

    /** Repeated passes at one instant terminate with nothing overdue. */
    method CatchUp(r: Reads) returns (passes: nat)
      requires Valid() && r.minutes > 0
      modifies this
      ensures Valid() && forall c :: c in club.courts ==> !Overdue(club.courts[c], r.now)
      ensures passes <= TotalBacklog(old(club), r.now)
    {
      passes := 0;
      hide SessionsLinked, QueuesLinked, IdsBelow;
      while OverdueCourts(sessions, r.now) != {}
        invariant Valid() && passes + TotalBacklog(club, r.now) <= TotalBacklog(old(club), r.now)
        decreases TotalBacklog(club, r.now)
      {
        ghost var before := club;
        ghost var c :| c in OverdueCourts(sessions, r.now);
        OverdueFound(sessions, club, playing, r.now);
        assert Overdue(club.courts[c], r.now);
        var scanned := EngineTick(r);
        PassCutsBacklog(before, scanned, r);
        passes := passes + 1;
      }
      OverdueFound(sessions, club, playing, r.now);
    }
  }
}
