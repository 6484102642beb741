/**
 The sliding-window request limiter: a Redis sorted set of admission times that
 is pruned on every request and expires as a whole, against the log of all
 admissions ever made. Instants are milliseconds of a clock that moves forward.
 */
module SlidingWindow {
  /** The admissions after the cutoff, in order. */
  function Recent(log: seq<int>, cutoff: int): seq<int> {
    if log == [] then []
    else Recent(log[..|log| - 1], cutoff) + if log[|log| - 1] > cutoff then [log[|log| - 1]] else []
  }

  ghost predicate Ascending(log: seq<int>) {
    forall i, j :: 0 <= i < j < |log| ==> log[i] <= log[j]
  }

  /** How many leading entries are not after the cutoff. */
  function Stale(log: seq<int>, cutoff: int): (k: nat)
    ensures k <= |log|
    ensures forall i :: 0 <= i < k ==> log[i] <= cutoff
    ensures k < |log| ==> log[k] > cutoff
  {
    if log == [] || log[0] > cutoff then 0 else 1 + Stale(log[1..], cutoff)
  }

  /** All recent: nothing is filtered out. */
  lemma {:induction false} AllRecent(log: seq<int>, cutoff: int)
    requires forall i :: 0 <= i < |log| ==> log[i] > cutoff
    ensures Recent(log, cutoff) == log
  {
    if log != [] {
      AllRecent(log[..|log| - 1], cutoff);
    }
  }

  lemma {:induction false} RecentSplits(a: seq<int>, b: seq<int>, cutoff: int)
    ensures Recent(a + b, cutoff) == Recent(a, cutoff) + Recent(b, cutoff)
  {
    if b == [] {
      assert a + b == a;
    } else {
      RecentSplits(a, b[..|b| - 1], cutoff);
      assert (a + b)[..|a + b| - 1] == a + b[..|b| - 1];
    }
  }

  lemma RecentFrom(log: seq<int>, cutoff: int, k: nat)
    requires k <= |log|
    requires NoneAfter(log[..k], cutoff)
    requires forall i :: k <= i < |log| ==> log[i] > cutoff
    ensures Recent(log, cutoff) == log[k..]
  {
    NothingRecent(log[..k], cutoff);
    AllRecent(log[k..], cutoff);
    RecentSplits(log[..k], log[k..], cutoff);
    assert log[..k] + log[k..] == log;
  }

  /** On an ascending log the recent admissions are the suffix from k. */
  lemma RecentIsSuffix(log: seq<int>, cutoff: int) returns (k: nat)
    requires Ascending(log)
    ensures k <= |log| && Recent(log, cutoff) == log[k..]
    ensures forall i :: 0 <= i < |log| ==> (log[i] > cutoff <==> i >= k)
  {
    k := Stale(log, cutoff);
    RecentFrom(log, cutoff, k);
  }

  /** Pruning twice is pruning once, so pruned entries never mattered. */
  lemma {:induction false} PruningIsInvisible(log: seq<int>, early: int, late: int)
    requires early <= late
    ensures Recent(Recent(log, early), late) == Recent(log, late)
  {
    if log != [] {
      var init, last := log[..|log| - 1], log[|log| - 1];
      PruningIsInvisible(init, early, late);
      var kept := Recent(init, early);
      if last > early {
        assert (kept + [last])[..|kept|] == kept;
      } else {
        assert kept + [] == kept;
      }
    }
  }

  ghost predicate NoneAfter(log: seq<int>, instant: int) {
    forall i :: 0 <= i < |log| ==> log[i] <= instant
  }

  lemma NoneLater(log: seq<int>, instant: int, later: int)
    requires NoneAfter(log, instant) && instant <= later
    ensures NoneAfter(log, later)
  {
  }

  lemma {:induction false} NothingRecent(log: seq<int>, cutoff: int)
    requires NoneAfter(log, cutoff)
    ensures Recent(log, cutoff) == []
  {
    if log != [] {
      NothingRecent(log[..|log| - 1], cutoff);
    }
  }

  /** Fewer than max admissions in the window before `now`. */
  predicate Admits(log: seq<int>, now: int, max: nat, window: nat) {
    |Recent(log, now - window)| < max
  }

  /** Any max + 1 consecutive admissions span at least a window. */
  ghost predicate Spaced(log: seq<int>, max: nat, window: nat) {
    forall i, j :: 0 <= i <= j < |log| && j - i >= max ==> log[j] - log[i] >= window
  }

  lemma AdmissionKeepsSpacing(log: seq<int>, now: nat, max: nat, window: nat)
    requires Ascending(log + [now]) && Spaced(log, max, window) && Admits(log, now, max, window)
    ensures Spaced(log + [now], max, window)
  {
    assert Ascending(log) by {
      assert forall i :: 0 <= i < |log| ==> (log + [now])[i] == log[i];
    }
    var k := RecentIsSuffix(log, now - window);
  }

  /**
   When a full window frees up: the next admission is possible exactly from a
   window after its oldest entry on.
   */
  lemma NextFreeInstant(log: seq<int>, now: nat, max: nat, window: nat, later: int)
    requires Ascending(log) && Spaced(log, max, window) && !Admits(log, now, max, window) && max > 0
    requires NoneAfter(log, now)
    requires later >= now
    ensures Recent(log, now - window) != []
    ensures Admits(log, later, max, window) <==> later >= Recent(log, now - window)[0] + window
  {
    var k := RecentIsSuffix(log, now - window);
    var m := RecentIsSuffix(log, later - window);
    assert |Recent(log, later - window)| == |log| - m && |Recent(log, now - window)| == |log| - k;
    assert Recent(log, now - window)[0] == log[k];
    SpacedAt(log, max, window, k, |log| - 1);
    hide *;
  }

  /** Without further admissions, requests are admitted exactly from `wait` after `now` on. */
  ghost predicate FreesAfter(log: seq<int>, now: nat, wait: int, max: nat, window: nat) {
    forall later: int :: later >= now ==> (Admits(log, later, max, window) <==> later >= now + wait)
  }

  /** The hint is the true wait in whole seconds, short by less than one, or 1. */
  ghost predicate GoodHint(log: seq<int>, now: nat, retry: int, max: nat, window: nat) {
    exists wait: int :: FreesAfter(log, now, wait, max, window)
                        && wait - 1000 < retry * 1000 && (retry * 1000 <= wait || retry == 1)
  }

  /** The hint of a full window, from its oldest entry. */
  function Hint(oldest: int, now: nat, window: nat): int {
    var seconds := (oldest + window - now) / 1000;
    if seconds > 1 then seconds else 1
  }

  lemma RefusalFrees(log: seq<int>, now: nat, max: nat, window: nat)
    requires Ascending(log) && Spaced(log, max, window) && !Admits(log, now, max, window) && max > 0
    requires NoneAfter(log, now)
    ensures Recent(log, now - window) != []
    ensures GoodHint(log, now, Hint(Recent(log, now - window)[0], now, window), max, window)
  {
    forall later: int | later >= now
      ensures Admits(log, later, max, window) <==> later >= Recent(log, now - window)[0] + window
    {
      NextFreeInstant(log, now, max, window, later);
    }
    var k := RecentIsSuffix(log, now - window);
    assert FreesAfter(log, now, log[k] + window - now, max, window);
  }

  /** The pruned set alone decides the answer and the hint. */
  lemma PrunedSetDecides(log: seq<int>, now: nat, max: nat, window: nat)
    requires Ascending(log) && Spaced(log, max, window) && NoneAfter(log, now) && window > 0
    ensures var scores := Recent(log, now - window);
            && (|scores| < max <==> Admits(log, now, max, window))
            && (max == 0 ==> scores == [])
            && (|scores| >= max > 0 ==> scores != [] && GoodHint(log, now, Hint(scores[0], now, window), max, window))
  {
    if max == 0 {
      NeverAdmitted(log, window);
    } else if !Admits(log, now, max, window) {
      RefusalFrees(log, now, max, window);
    }
  }

  lemma SpacedAt(log: seq<int>, max: nat, window: nat, i: int, j: int)
    requires Spaced(log, max, window)
    ensures 0 <= i <= j < |log| && j - i >= max ==> log[j] - log[i] >= window
  {
  }

  lemma NeverAdmitted(log: seq<int>, window: nat)
    requires Spaced(log, 0, window) && window > 0
    ensures log == []
  {
    SpacedAt(log, 0, window, 0, 0);
  }

  lemma AppendAscends(log: seq<int>, now: nat)
    requires Ascending(log) && NoneAfter(log, now)
    ensures Ascending(log + [now]) && NoneAfter(log + [now], now)
  {
  }

  lemma AdmissionStaysRecent(log: seq<int>, now: nat, window: nat)
    requires window > 0
    ensures Recent(log + [now], now - window) == Recent(log, now - window) + [now]
  {
  }

  /** One limiter key: its sorted set and expiry, and (ghost) every admission so far. */
  class Limiter {
    const max: nat
    const windowSecs: nat
    var scores: seq<int>
    var expiresAt: nat
    ghost var log: seq<int>
    ghost var clock: nat
    ghost var pruned: int

    ghost predicate Valid()
      reads this
    {
      && windowSecs > 0 && Ascending(log) && Spaced(log, max, windowSecs * 1000)
      && NoneAfter(log, clock) && NoneAfter(log, expiresAt - windowSecs * 1000)
      && pruned <= clock - windowSecs * 1000 && scores == Recent(log, pruned)
    }

    constructor (max: nat, windowSecs: nat)
      requires windowSecs > 0
      ensures Valid() && log == [] && clock == 0 && this.max == max && this.windowSecs == windowSecs
    {
      this.max, this.windowSecs := max, windowSecs;
      scores, expiresAt, log, clock, pruned := [], 0, [], 0, 0 - windowSecs * 1000;
    }

    /** Redis drops the expired key, or the pruning command trims it. */
    method Prune(now: nat, vanished: bool)
      requires Valid() && now >= clock && (vanished ==> now >= expiresAt)
      modifies `scores, `clock, `pruned
      ensures Valid() && clock == now && pruned == now - windowSecs * 1000
      ensures scores == Recent(log, now - windowSecs * 1000)
    {
      hide Recent, Ascending, Spaced, NoneAfter;
      var cutoff := now - windowSecs * 1000;
      NoneLater(log, clock, now);
      if vanished {
        NoneLater(log, expiresAt - windowSecs * 1000, cutoff);
        NothingRecent(log, cutoff);
        scores := [];
      } else {
        PruningIsInvisible(log, pruned, cutoff);
        scores := Recent(scores, cutoff);
      }
      clock, pruned := now, cutoff;
    }

    /** Add the admission and put off the expiry. */
    method Record(now: nat)
      requires Valid() && clock == now && pruned == now - windowSecs * 1000 && Admits(log, now, max, windowSecs * 1000)
      modifies `scores, `expiresAt, `log
      ensures Valid() && log == old(log) + [now]
    {
      hide Recent, Ascending, Spaced, Admits, NoneAfter;
      AdmissionStaysRecent(log, now, windowSecs * 1000);
      AppendAscends(log, now);
      AdmissionKeepsSpacing(log, now, max, windowSecs * 1000);
      scores, log := scores + [now], log + [now];
      expiresAt := now + windowSecs * 1000;
    }

    /**
     One request. `vanished` says whether Redis has already dropped the expired
     key; it may do so at any time from the expiry on.
     */
    method Request(now: nat, vanished: bool) returns (allowed: bool, retry: int)
      requires Valid() && now >= clock && (vanished ==> now >= expiresAt)
      modifies this
      ensures Valid() && clock == now
      ensures allowed <==> Admits(old(log), now, max, windowSecs * 1000)
      ensures log == if allowed then old(log) + [now] else old(log)
      ensures !allowed && max > 0 ==> GoodHint(log, now, retry, max, windowSecs * 1000)
      ensures !allowed && max == 0 ==> retry == windowSecs
    {
      hide Recent, Ascending, Spaced, Admits, NoneAfter, GoodHint, Hint;
      Prune(now, vanished);
      var window := windowSecs * 1000;
      PrunedSetDecides(log, now, max, window);
      if |scores| >= max {
        retry := if scores == [] then windowSecs else Hint(scores[0], now, window);
        return false, retry;
      }
      Record(now);
      allowed, retry := true, 0;
    }
  }

  /** Whatever the instant, at most max of the admissions lie in one window. */
  lemma WindowHoldsAtMostMax(log: seq<int>, from: int, max: nat, window: nat, i: nat, j: nat)
    requires Ascending(log) && Spaced(log, max, window)
    requires i <= j <= |log| && (forall k :: i <= k < j ==> from <= log[k] < from + window)
    ensures j - i <= max
  {
    SpacedAt(log, max, window, i, i + max);
  }
}
