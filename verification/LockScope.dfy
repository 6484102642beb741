/**
 What a transaction locks and reads is just what it needs: its batch is its own
 party and the group it puts on court, and its decision depends on no pass whose
 validity it has not read.
 */
module LockScope {
  import opened Wrappers
  import opened CourtModel
  import opened CourtInvariant
  import opened Interleaving

  /** The passes an action names. */
  function PartyOf(req: Request): set<PassId> {
    if Places(req) || req.LeaveCourt? || req.LeaveQueue? then Passes(req.party.holders) else {}
  }

  /** The one batch of credential locks: the party, and whoever the action puts on court. */
  lemma BatchIsExact(ct: Court, req: Request, errors: seq<CredError>, r: Reads, x: PassId)
    requires Tidy(ct) && !req.Resize? && AllowedSize(req) && ActOn(ct, req, errors, r).Committed?
    ensures x in Batch(ct, req, r) <==>
              x in PartyOf(req) || (x in Players(ActOn(ct, req, errors, r).value) && x !in Players(ct))
  {
    var k := FirstUsable(ct.queue, r.usable);
    assert k < |ct.queue| && x in ct.queue[k] ==> x !in Players(ct);
    hide Tidy, FirstUsable, Passes, MissingErrors, Everyone, GroupOf;
  }

  lemma SamePromotion(ct: Court, r: Reads, usable: set<PassId>)
    requires FirstUsable(ct.queue, usable) == FirstUsable(ct.queue, r.usable)
    ensures PromoteNext(ct, r.(usable := usable)) == PromoteNext(ct, r)
  {
    hide FirstUsable;
  }

  lemma SameAct(ct: Court, req: Request, errors: seq<CredError>, r: Reads, usable: set<PassId>)
    requires !req.Resize? && AllowedSize(req)
    requires req.Expire? || req.LeaveCourt? ==> PromoteNext(ct, r.(usable := usable)) == PromoteNext(ct, r)
    requires req.Expire? ==> (Players(ct) <= r.usable <==> Players(ct) <= usable)
    ensures ActOn(ct, req, errors, r.(usable := usable)) == ActOn(ct, req, errors, r)
  {
    hide PromoteNext, FirstUsable, MissingErrors, Passes, Everyone, GroupOf;
  }

  /** Agreeing on the groups up to the first usable one is agreeing on which that is. */
  lemma SameFirstUsable(queue: seq<set<PassId>>, read: set<PassId>, usable: set<PassId>, known: set<PassId>)
    requires forall x :: x in known ==> (x in read <==> x in usable)
    requires forall i :: 0 <= i < |queue| && i <= FirstUsable(queue, read) ==> queue[i] <= known
    ensures FirstUsable(queue, usable) == FirstUsable(queue, read)
  {
    var k := FirstUsable(queue, read);
    forall i | 0 <= i < |queue| && i <= k ensures queue[i] <= read <==> queue[i] <= usable {
      assert queue[i] <= known;
    }
  }

  /** The decision is the same whatever the validity of the passes it did not read. */
  lemma DecisionNeedsOnlyWhatWasRead(tx: Tx, usable: set<PassId>)
    requires CourtJob(tx.job) && Informed(tx)
    requires forall x :: x in tx.known ==> (tx.known[x] <==> x in usable)
    ensures ActOn(tx.view, tx.job.req, OwnErrors(tx.job.req), ReadsOf(tx).(usable := usable)) == Decision(tx)
  {
    var r := ReadsOf(tx);
    assert forall x :: x in tx.known.Keys ==> (x in r.usable <==> x in usable);
    hide ActOn, FirstUsable, OwnErrors, ReadsOf;
    if tx.job.req.Expire? || tx.job.req.LeaveCourt? {
      SameFirstUsable(tx.view.queue, r.usable, usable, tx.known.Keys);
      SamePromotion(tx.view, r, usable);
    }
    SameAct(tx.view, tx.job.req, OwnErrors(tx.job.req), r, usable);
  }

  /**
   A commit whose reads of validity are still true is the atomic step on the
   club just before it, with the passes that are usable at that moment.
   */
  lemma CommitWithTrueValidity(s: System, t: TxId)
    requires Inv(s) && t in s.txs && MayCommit(s.txs[t]) && s.txs[t].job.OnCourt?
    requires forall x :: x in s.txs[t].known ==> (s.txs[t].known[x] <==> x in s.usable)
    ensures var tx := s.txs[t];
            var o := Step(s.club, RequestOf(tx), ReadsOf(tx).(usable := s.usable));
            o.Committed? && o.value == Written(s.club, tx)
  {
    var tx := s.txs[t];
    assert TxOk(s.club, s.owner, t, tx);
    CommitIsAtomicStep(s.club, s.owner, t, tx);
    DecisionNeedsOnlyWhatWasRead(tx, s.usable);
    SameStep(s.club, tx, s.usable);
  }

  lemma SameStep(club: Club, tx: Tx, usable: set<PassId>)
    requires CourtJob(tx.job) && tx.job.req.court in club.courts && tx.view == club.courts[tx.job.req.court]
    requires Errors(club, tx.job.req) == OwnErrors(tx.job.req)
    requires ActOn(tx.view, tx.job.req, OwnErrors(tx.job.req), ReadsOf(tx).(usable := usable)) == Decision(tx)
    ensures Step(club, tx.job.req, ReadsOf(tx).(usable := usable)) == Step(club, tx.job.req, ReadsOf(tx))
  {
    hide ActOn, Errors, OwnErrors, ReadsOf;
  }
}
