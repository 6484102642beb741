/**
 Conservation: what one action adds to a court's roster, what it takes off it,
 and which actions may move a running session's deadline.
 */
module RosterConservation {
  import opened CourtModel
  import opened CourtInvariant
  import opened QueueFairness

  function Leavers(req: Request): set<PassId> {
    if req.LeaveCourt? || req.LeaveQueue? then Passes(req.party.holders) else {}
  }

  /** The pass waits in a group that promotion drops. */
  ghost predicate InDropped(ct: Court, r: Reads, x: PassId) {
    exists i :: 0 <= i < FirstUsable(ct.queue, r.usable) && x in ct.queue[i]
  }

  /** The action takes the pass off the court's roster. */
  ghost predicate Departs(ct: Court, req: Request, note: Note, r: Reads, x: PassId) {
    || x in Leavers(req)
    || (EndsSession(note) && x in Players(ct))
    || ((EndsSession(note) || note.Extended?) && InDropped(ct, r, x))
    || (req.Close? && req.from <= r.now && InLine(ct, x))
    || (req.Release? && ClosedAt(ct, r.now) && InLine(ct, x))
  }

  lemma PromotionKeepsRoster(ct: Court, r: Reads, x: PassId)
    requires Tidy(ct)
    ensures var p := PromoteNext(ct, r);
            InLine(p.court, x) || (p.moved && x in Players(p.court)) <==> InLine(ct, x) && !InDropped(ct, r, x)
  {
    var p, k := PromoteNext(ct, r), FirstUsable(ct.queue, r.usable);
    var shift := k + if p.moved then 1 else 0;
    PromotionIsSuffix(ct, r);
    hide FirstUsable;
    if i :| 0 <= i < |p.court.queue| && x in p.court.queue[i] {
      assert x in ct.queue[i + shift];
    }
    if i :| 0 <= i < |ct.queue| && x in ct.queue[i] && !InDropped(ct, r, x) {
      assert k <= i;
      assert i < shift || p.court.queue[i - shift] == ct.queue[i];
    }
  }

  ghost predicate Conserves(ct: Court, req: Request, errors: seq<CredError>, r: Reads, x: PassId)
    requires !req.Resize? && AllowedSize(req) && ActOn(ct, req, errors, r).Committed?
  {
    var o := ActOn(ct, req, errors, r);
    OnRoster(o.value, x) <==> (OnRoster(ct, x) && !Departs(ct, req, o.note, r, x)) || x in Newcomers(req)
  }

  lemma SameLine(ct: Court, ct': Court, x: PassId)
    requires ct'.queue == ct.queue
    ensures InLine(ct', x) <==> InLine(ct, x)
  {
  }

  lemma PlayersDoNotWait(ct: Court, r: Reads, x: PassId)
    requires Tidy(ct) && x in Players(ct)
    ensures !InLine(ct, x) && !InDropped(ct, r, x)
  {
  }

  lemma ExpireConserves(ct: Court, c: int, errors: seq<CredError>, r: Reads, x: PassId)
    requires Tidy(ct) && ActOn(ct, Expire(c), errors, r).Committed?
    ensures Conserves(ct, Expire(c), errors, r, x)
  {
    PromotionKeepsRoster(ct, r, x);
    if x in Players(ct) {
      PlayersDoNotWait(ct, r, x);
    }
    SameLine(PromoteNext(ct, r).court, ActOn(ct, Expire(c), errors, r).value, x);
    hide Tidy, FirstUsable, InDropped, InLine;
  }

  lemma LeaveCourtConserves(ct: Court, c: int, party: Party, errors: seq<CredError>, r: Reads, x: PassId)
    requires Tidy(ct) && party.Distinct() && AllowedSize(LeaveCourt(c, party))
    requires ActOn(ct, LeaveCourt(c, party), errors, r).Committed?
    ensures Conserves(ct, LeaveCourt(c, party), errors, r, x)
  {
    MissingErrorsComplete(c, NotOnCourt, Players(ct), party.holders);
    assert x in Passes(party.holders) ==> x in Players(ct);
    hide MissingErrors, Passes;
    if x in Players(ct) {
      PlayersDoNotWait(ct, r, x);
    }
    if EndsSession(ActOn(ct, LeaveCourt(c, party), errors, r).note) {
      WholeGroupLeaves(ct, c, party, errors, r, x);
    } else {
      SameLine(ct, ActOn(ct, LeaveCourt(c, party), errors, r).value, x);
      hide Tidy, InLine, InDropped, PromoteNext;
    }
  }

  lemma WholeGroupLeaves(ct: Court, c: int, party: Party, errors: seq<CredError>, r: Reads, x: PassId)
    requires Tidy(ct) && AllowedSize(LeaveCourt(c, party)) && ActOn(ct, LeaveCourt(c, party), errors, r).Committed?
    requires EndsSession(ActOn(ct, LeaveCourt(c, party), errors, r).note)
    requires x in Passes(party.holders) ==> x in Players(ct)
    requires x in Players(ct) ==> !InLine(ct, x) && !InDropped(ct, r, x)
    ensures Conserves(ct, LeaveCourt(c, party), errors, r, x)
  {
    EndingActPromotes(ct, LeaveCourt(c, party), errors, r);
    PromotionKeepsRoster(ct, r, x);
    SameLine(PromoteNext(ct, r).court, ActOn(ct, LeaveCourt(c, party), errors, r).value, x);
    hide Tidy, InLine, InDropped, PromoteNext, Passes, ActOn;
  }

  lemma GroupGoneLine(ct: Court, g: nat, x: PassId)
    requires Tidy(ct) && g < |ct.queue|
    ensures InLine(ct.(queue := ct.queue[..g] + ct.queue[g + 1..]), x) <==> InLine(ct, x) && x !in ct.queue[g]
  {
    var queue := ct.queue[..g] + ct.queue[g + 1..];
    if i :| 0 <= i < |ct.queue| && x in ct.queue[i] && i != g {
      assert queue[if i < g then i else i - 1] == ct.queue[i];
    }
    if i :| 0 <= i < |queue| && x in queue[i] {
      assert queue[i] == ct.queue[if i < g then i else i + 1];
    }
  }

  lemma PairGoneLine(ct: Court, g: nat, rest: set<PassId>, x: PassId)
    requires Tidy(ct) && g < |ct.queue| && rest <= ct.queue[g]
    ensures InLine(ct.(queue := ct.queue[g := rest]), x) <==> InLine(ct, x) && x !in ct.queue[g] - rest
  {
    var queue := ct.queue[g := rest];
    if i :| 0 <= i < |ct.queue| && x in ct.queue[i] && (i != g || x in rest) {
      assert x in queue[i];
    }
    if i :| 0 <= i < |queue| && x in queue[i] {
      assert x in ct.queue[i];
    }
  }

  lemma LeaveQueueConserves(ct: Court, c: int, party: Party, errors: seq<CredError>, r: Reads, x: PassId)
    requires Tidy(ct) && party.Distinct() && AllowedSize(LeaveQueue(c, party))
    requires ActOn(ct, LeaveQueue(c, party), errors, r).Committed?
    ensures Conserves(ct, LeaveQueue(c, party), errors, r, x)
  {
    var g, leaving := GroupOf(ct.queue, party.holders[0].pass), Passes(party.holders);
    LeaveRemainder(ct.queue[g], party.holders);
    assert x in ct.queue[g] ==> x !in Players(ct);
    GroupGoneLine(ct, g, x);
    PairGoneLine(ct, g, ct.queue[g] - leaving, x);
    hide Tidy, GroupOf, Passes, MissingErrors, Everyone, InLine;
    if |ct.queue[g]| == |party.holders| {
      assert ct.queue[g] - leaving == {};
      assert x in ct.queue[g] <==> x in leaving by {
        assert x !in ct.queue[g] - leaving;
      }
    }
  }

  lemma EnqueueConserves(ct: Court, c: int, party: Party, errors: seq<CredError>, r: Reads, x: PassId)
    requires AllowedSize(Enqueue(c, party)) && ActOn(ct, Enqueue(c, party), errors, r).Committed?
    ensures Conserves(ct, Enqueue(c, party), errors, r, x)
  {
    var queue := ct.queue + [Passes(party.holders)];
    assert queue[|ct.queue|] == Passes(party.holders);
    if i :| 0 <= i < |ct.queue| && x in ct.queue[i] {
      assert x in queue[i];
    }
    hide Passes;
  }

  lemma OthersConserve(ct: Court, req: Request, errors: seq<CredError>, r: Reads, x: PassId)
    requires Tidy(ct) && (req.Take? || req.Join? || req.Close? || req.Reopen? || req.Release?) && AllowedSize(req)
    requires ActOn(ct, req, errors, r).Committed?
    ensures Conserves(ct, req, errors, r, x)
  {
    assert x in Players(ct) ==> !InLine(ct, x);
    hide Tidy, FirstUsable, Passes;
  }

  /**
   Conservation: after an action the court holds exactly the passes it held
   before and its own party, less its leavers, the session it ended, and the
   groups it dropped or released.
   */
  lemma ActConservesRoster(ct: Court, req: Request, errors: seq<CredError>, r: Reads, x: PassId)
    requires Tidy(ct) && DistinctParty(req) && !req.Resize? && AllowedSize(req)
    requires ActOn(ct, req, errors, r).Committed?
    ensures var o := ActOn(ct, req, errors, r);
            OnRoster(o.value, x) <==> (OnRoster(ct, x) && !Departs(ct, req, o.note, r, x)) || x in Newcomers(req)
  {
    match req
    case LeaveQueue(c, party) => LeaveQueueConserves(ct, c, party, errors, r, x);
    case Enqueue(c, party) => EnqueueConserves(ct, c, party, errors, r, x);
    case Expire(c) => ExpireConserves(ct, c, errors, r, x);
    case LeaveCourt(c, party) => LeaveCourtConserves(ct, c, party, errors, r, x);
    case _ => OthersConserve(ct, req, errors, r, x);
  }

  /** Only starting, promoting and extending set a deadline; anything else leaves the running session's times alone. */
  lemma ActMovesDeadline(ct: Court, req: Request, errors: seq<CredError>, r: Reads)
    requires !req.Resize? && AllowedSize(req) && ActOn(ct, req, errors, r).Committed?
    requires ActOn(ct, req, errors, r).value.session.Some?
    ensures var s', note := ActOn(ct, req, errors, r).value.session.value, ActOn(ct, req, errors, r).note;
            if note.Started? || EndsSession(note) then
              s'.startedAt == r.now && s'.endsAt == r.now + r.minutes * MINUTE && s'.extensions == 0
            else
              && ct.session.Some? && s'.startedAt == ct.session.value.startedAt
              && s'.endsAt == ct.session.value.endsAt + (if note.Extended? then r.minutes * MINUTE else 0)
              && s'.extensions == ct.session.value.extensions + (if note.Extended? then 1 else 0)
              && (note.Extended? ==> s'.players == ct.session.value.players
                                     && forall i :: 0 <= i < |ct.queue| ==> !(ct.queue[i] <= r.usable))
  {
    match req
    case Expire(_) => PromotionTakesFirstUsable(ct, r);
    case LeaveCourt(_, _) =>
    case _ =>
  }
}
