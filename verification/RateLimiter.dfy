/**
 The in-memory fixed-window limiter per IP: a table of window starts and counts
 that evicts stale windows when it grows, against the same table never evicted.
 Counts wrap at 32 bits. Instants come from a monotonic clock.
 */
module RateLimiter {
  type Ip = nat

  const WRAP: nat := 0x1_0000_0000

  datatype Entry = Entry(start: int, count: nat)

  /** The window of one IP after one more check. */
  function Touch(table: map<Ip, Entry>, ip: Ip, now: int, window: nat): Entry {
    if ip in table && now - table[ip].start < window then Entry(table[ip].start, (table[ip].count + 1) % WRAP)
    else Entry(now, 1)
  }

  class Limiter {
    const max: nat
    const window: nat
    var hits: map<Ip, Entry>
    ghost var full: map<Ip, Entry>
    ghost var clock: int

    /** What was evicted is stale and would be restarted anyway. */
    ghost predicate Valid()
      reads this
    {
      && (forall ip :: ip in hits ==> ip in full && hits[ip] == full[ip])
      && (forall ip :: ip in full && ip !in hits ==> clock - full[ip].start >= window)
    }

    constructor (max: nat, window: nat)
      ensures Valid() && full == map[] && this.max == max && this.window == window
    {
      this.max, this.window := max, window;
      hits, full, clock := map[], map[], 0;
    }

    /** Drop the windows that are over. */
    method Evict(now: int)
      requires Valid() && now >= clock
      modifies `hits, `clock
      ensures Valid() && clock == now
    {
      hits := map ip | ip in hits && now - hits[ip].start < window :: hits[ip];
      clock := now;
    }

    /** Eviction never changes an answer: the answer is the unevicted table's. */
    method Check(ip: Ip, now: int) returns (ok: bool)
      requires Valid() && now >= clock
      modifies this
      ensures Valid() && clock == now
      ensures full == old(full)[ip := Touch(old(full), ip, now, window)]
      ensures ok <==> full[ip].count <= max
    {
      if |hits| > 10_000 {
        Evict(now);
      }
      var entry := if ip in hits then hits[ip] else Entry(now, 0);
      if now - entry.start >= window {
        entry := Entry(now, 0);
      }
      entry := entry.(count := (entry.count + 1) % WRAP);
      clock := now;
      hits, full := hits[ip := entry], full[ip := Touch(full, ip, now, window)];
      ok := entry.count <= max;
    }
  }

  // ---- runs -----------------------------------------------------------------

  datatype Call = Call(ip: Ip, now: int)

  ghost predicate Forward(calls: seq<Call>) {
    forall i, j :: 0 <= i < j < |calls| ==> calls[i].now <= calls[j].now
  }

  function Table(calls: seq<Call>, window: nat): map<Ip, Entry> {
    if calls == [] then map[]
    else
      var table, last := Table(calls[..|calls| - 1], window), calls[|calls| - 1];
      table[last.ip := Touch(table, last.ip, last.now, window)]
  }

  /** How many checks of the IP from the instant on were allowed. */
  function Allowed(calls: seq<Call>, ip: Ip, from: int, max: nat, window: nat): nat {
    if calls == [] then 0
    else
      var last := calls[|calls| - 1];
      Allowed(calls[..|calls| - 1], ip, from, max, window)
      + if last.ip == ip && last.now >= from && Table(calls, window)[ip].count <= max then 1 else 0
  }

  // ---- one IP's own checks --------------------------------------------------

  /** The checks of one IP, in order. */
  function OfIp(calls: seq<Call>, ip: Ip): seq<Call> {
    if calls == [] then []
    else OfIp(calls[..|calls| - 1], ip) + if calls[|calls| - 1].ip == ip then [calls[|calls| - 1]] else []
  }

  ghost predicate AllOf(calls: seq<Call>, ip: Ip) {
    forall i :: 0 <= i < |calls| ==> calls[i].ip == ip
  }

  ghost predicate AllBefore(calls: seq<Call>, end: int) {
    forall i :: 0 <= i < |calls| ==> calls[i].now < end
  }

  ghost predicate NoneAfter(calls: seq<Call>, end: int) {
    forall i :: 0 <= i < |calls| ==> calls[i].now <= end
  }

  /** At most n of the checks fall in any one window. */
  ghost predicate AtMost(mine: seq<Call>, n: nat, window: nat) {
    forall i, j :: 0 <= i < j < |mine| && j - i >= n ==> mine[j].now - mine[i].now >= window
  }

  /** The IP's count never wrapped around to 0. */
  ghost predicate Unwrapped(calls: seq<Call>, ip: Ip, window: nat) {
    calls == [] ||
    (Unwrapped(calls[..|calls| - 1], ip, window) && (calls[|calls| - 1].ip == ip ==> Table(calls, window)[ip].count != 0))
  }

  /** An IP's window, allowed checks and wrapping depend on its own checks alone. */
  lemma {:induction false} OnlyOwnChecksMatter(calls: seq<Call>, ip: Ip, from: int, max: nat, window: nat)
    ensures var mine := OfIp(calls, ip);
            && (ip in Table(calls, window) <==> ip in Table(mine, window))
            && (ip in Table(mine, window) ==> Table(calls, window)[ip] == Table(mine, window)[ip])
            && Allowed(calls, ip, from, max, window) == Allowed(mine, ip, from, max, window)
            && (Unwrapped(calls, ip, window) <==> Unwrapped(mine, ip, window))
            && AllOf(mine, ip)
  {
    if calls != [] {
      var init, last := calls[..|calls| - 1], calls[|calls| - 1];
      OnlyOwnChecksMatter(init, ip, from, max, window);
      if last.ip == ip {
        assert OfIp(calls, ip)[..|OfIp(calls, ip)| - 1] == OfIp(init, ip);
      } else {
        assert OfIp(calls, ip) == OfIp(init, ip);
      }
    }
  }

  lemma {:induction false} OwnChecksAreOrdered(calls: seq<Call>, ip: Ip, end: int)
    requires Forward(calls)
    ensures Forward(OfIp(calls, ip))
    ensures AllBefore(calls, end) ==> AllBefore(OfIp(calls, ip), end)
    ensures NoneAfter(calls, end) ==> NoneAfter(OfIp(calls, ip), end)
  {
    if calls != [] {
      var init, last := calls[..|calls| - 1], calls[|calls| - 1];
      assert forall i :: 0 <= i < |init| ==> init[i] == calls[i];
      OwnChecksAreOrdered(init, ip, end);
      OwnChecksAreOrdered(init, ip, last.now);
    }
  }

  // ---- fixed windows --------------------------------------------------------

  /** How many of the first k checks of a fixed window are allowed. */
  function AllowedOf(k: nat, max: nat): nat {
    if k == 0 then 0 else AllowedOf(k - 1, max) + if k % WRAP <= max then 1 else 0
  }

  function Min(a: nat, b: nat): nat {
    if a < b then a else b
  }

  lemma NextModulo(n: nat)
    ensures (n % WRAP + 1) % WRAP == (n + 1) % WRAP
    ensures n < WRAP ==> n % WRAP == n
    ensures WRAP <= n < 2 * WRAP ==> n % WRAP == n - WRAP
  {
  }

  /** Up to the wrap at most max; from the wrap on every check again, until max is passed once more. */
  lemma {:induction false} AllowedOfWindow(k: nat, max: nat)
    requires max < WRAP && k <= WRAP + max
    ensures AllowedOf(k, max) == Min(k, max) + if k >= WRAP then k - WRAP + 1 else 0
  {
    if k > 0 {
      AllowedOfWindow(k - 1, max);
      NextModulo(k);
    }
  }

  /** How many checks come before the instant. */
  function Early(mine: seq<Call>, from: int): (p: nat)
    ensures p <= |mine|
  {
    if mine == [] then 0
    else Early(mine[..|mine| - 1], from) + if mine[|mine| - 1].now < from then 1 else 0
  }

  lemma {:induction false} EarlyIsPrefix(mine: seq<Call>, from: int)
    requires Forward(mine)
    ensures forall i :: 0 <= i < |mine| ==> (mine[i].now < from <==> i < Early(mine, from))
  {
    if mine != [] {
      var init := mine[..|mine| - 1];
      assert forall i :: 0 <= i < |init| ==> init[i] == mine[i];
      EarlyIsPrefix(init, from);
    }
  }

  /** The checks from s to k - 1 lie in one fixed window that started with check s. */
  ghost predicate OneWindow(mine: seq<Call>, s: nat, k: nat, window: nat) {
    s < k <= |mine| && mine[k - 1].now - mine[s].now < window
  }

  /**
   The allowed checks of a span, counted by fixed window: the current window
   started with check s, and if that is inside the span the one before it
   started with check r, before the span or at its first check.
   */
  ghost predicate Counted(mine: seq<Call>, ip: Ip, from: int, max: nat, window: nat, s: nat, r: nat) {
    var p, n := Early(mine, from), |mine|;
    && OneWindow(mine, s, n, window)
    && ip in Table(mine, window) && Table(mine, window)[ip] == Entry(mine[s].now, (n - s) % WRAP)
    && (p == n ==> Allowed(mine, ip, from, max, window) == 0)
    && (s <= p ==> Allowed(mine, ip, from, max, window) == AllowedOf(n - s, max) - AllowedOf(p - s, max))
    && (s > p ==>
          && r <= p && OneWindow(mine, r, s, window)
          && Allowed(mine, ip, from, max, window) ==
             AllowedOf(s - r, max) - AllowedOf(p - r, max) + AllowedOf(n - s, max))
  }

  /** One more check in the current window. */
  lemma SameWindow(mine: seq<Call>, ip: Ip, from: int, max: nat, window: nat, s: nat, r: nat)
    requires |mine| > 1 && AllOf(mine, ip) && Counted(mine[..|mine| - 1], ip, from, max, window, s, r)
    requires mine[|mine| - 1].now - mine[s].now < window
    requires Early(mine, from) == |mine| || mine[|mine| - 1].now >= from
    ensures Counted(mine, ip, from, max, window, s, r)
  {
    NextModulo(|mine| - 1 - s);
  }

  /** A check that starts a new window; only one window can have started inside the span before it. */
  lemma NewWindow(mine: seq<Call>, ip: Ip, from: int, max: nat, window: nat, s: nat, r: nat)
    requires |mine| > 1 && AllOf(mine, ip) && Counted(mine[..|mine| - 1], ip, from, max, window, s, r) && window > 0
    requires mine[|mine| - 1].now - mine[s].now >= window && s <= Early(mine[..|mine| - 1], from)
    requires Early(mine, from) == |mine| || mine[|mine| - 1].now >= from
    ensures Counted(mine, ip, from, max, window, |mine| - 1, s)
  {
    NextModulo(1);
    assert AllowedOf(1, max) == if 1 <= max then 1 else 0;
  }

  lemma FirstCheck(mine: seq<Call>, ip: Ip, from: int, max: nat, window: nat)
    requires |mine| == 1 && AllOf(mine, ip) && window > 0
    ensures Counted(mine, ip, from, max, window, 0, 0)
  {
    assert mine[..0] == [];
    NextModulo(1);
    assert AllowedOf(1, max) == if 1 <= max then 1 else 0;
  }

  lemma {:induction false} SpanByWindows(mine: seq<Call>, ip: Ip, from: int, max: nat, window: nat) returns (s: nat, r: nat)
    requires Forward(mine) && AllOf(mine, ip) && AllBefore(mine, from + window) && mine != [] && window > 0
    ensures Counted(mine, ip, from, max, window, s, r)
  {
    var init, last := mine[..|mine| - 1], mine[|mine| - 1];
    EarlyIsPrefix(mine, from);
    if init == [] {
      s, r := 0, 0;
      FirstCheck(mine, ip, from, max, window);
    } else {
      assert forall i :: 0 <= i < |init| ==> init[i] == mine[i];
      s, r := SpanByWindows(init, ip, from, max, window);
      EarlyIsPrefix(init, from);
      assert s < |init|;
      hide Counted, Early;
      if last.now - mine[s].now < window {
        SameWindow(mine, ip, from, max, window, s, r);
      } else {
        NewWindow(mine, ip, from, max, window, s, r);
        r, s := s, |mine| - 1;
      }
    }
  }

  /** The arithmetic of two neighbouring windows with h checks before the span, t and b in it. */
  lemma TwoWindowsAllow(h: nat, t: nat, b: nat, max: nat)
    requires max < WRAP && h + t < WRAP + max && t + b < WRAP + max
    ensures AllowedOf(h + t, max) - AllowedOf(h, max) + AllowedOf(b, max) <= 2 * max
  {
    AllowedOfWindow(h + t, max);
    AllowedOfWindow(h, max);
    AllowedOfWindow(b, max);
  }

  lemma WindowHolds(mine: seq<Call>, limit: nat, window: nat, i: nat, k: nat)
    requires AtMost(mine, limit, window) && OneWindow(mine, i, k, window) && limit > 0
    ensures k - i <= limit
  {
    var first, last := mine[i], mine[k - 1];
  }

  lemma InsideOneWindow(mine: seq<Call>, ip: Ip, from: int, max: nat, window: nat, s: nat, r: nat)
    requires Counted(mine, ip, from, max, window, s, r) && AtMost(mine, WRAP + max - 1, window) && max < WRAP
    requires s <= Early(mine, from)
    ensures Allowed(mine, ip, from, max, window) <= 2 * max
  {
    var p, n := Early(mine, from), |mine|;
    WindowHolds(mine, WRAP + max - 1, window, s, n);
    assert Allowed(mine, ip, from, max, window) == AllowedOf(n - s, max) - AllowedOf(p - s, max);
    hide *;
    TwoWindowsAllow(p - s, n - p, 0, max);
  }

  lemma AcrossTwoWindows(mine: seq<Call>, ip: Ip, from: int, max: nat, window: nat, s: nat, r: nat)
    requires Counted(mine, ip, from, max, window, s, r) && AtMost(mine, WRAP + max - 1, window) && max < WRAP
    requires s > Early(mine, from) && OneWindow(mine, Early(mine, from), |mine|, window)
    ensures Allowed(mine, ip, from, max, window) <= 2 * max
  {
    var p, n := Early(mine, from), |mine|;
    assert r <= p < s < n && OneWindow(mine, r, s, window);
    assert Allowed(mine, ip, from, max, window)
           == AllowedOf(s - r, max) - AllowedOf(p - r, max) + AllowedOf(n - s, max);
    hide *;
    WindowHolds(mine, WRAP + max - 1, window, r, s);
    WindowHolds(mine, WRAP + max - 1, window, p, n);
    TwoWindowsAllow(p - r, s - p, n - s, max);
  }

  /**
   Any span of one window allows an IP at most 2 * max checks, as long as fewer
   than 2^32 + max of its checks fall in any one window; other IPs do not matter.
   */
  lemma AnySpanAllowsTwiceMax(calls: seq<Call>, ip: Ip, from: int, max: nat, window: nat)
    requires Forward(calls) && AllBefore(calls, from + window) && max < WRAP
    requires AtMost(OfIp(calls, ip), WRAP + max - 1, window)
    ensures Allowed(calls, ip, from, max, window) <= 2 * max
  {
    var mine := OfIp(calls, ip);
    OnlyOwnChecksMatter(calls, ip, from, max, window);
    OwnChecksAreOrdered(calls, ip, from + window);
    if mine != [] && window > 0 {
      EarlyIsPrefix(mine, from);
      var s, r := SpanByWindows(mine, ip, from, max, window);
      if s <= Early(mine, from) {
        InsideOneWindow(mine, ip, from, max, window, s, r);
      } else {
        AcrossTwoWindows(mine, ip, from, max, window, s, r);
      }
    } else {
      NothingAllowedEarly(mine, ip, from, max, window);
    }
  }

  lemma {:induction false} NothingAllowedEarly(mine: seq<Call>, ip: Ip, from: int, max: nat, window: nat)
    requires AllBefore(mine, from)
    ensures Allowed(mine, ip, from, max, window) == 0
  {
    if mine != [] {
      NothingAllowedEarly(mine[..|mine| - 1], ip, from, max, window);
    }
  }

  /** With at most n checks of an IP in any one window, no span of one window allows it more than 2 * max. */
  ghost predicate SpanSafe(n: nat, max: nat, window: nat) {
    forall calls, ip, from ::
      Forward(calls) && AllBefore(calls, from + window) && AtMost(OfIp(calls, ip), n, window) ==>
        Allowed(calls, ip, from, max, window) <= 2 * max
  }

  /** Exactly which rates keep the bound of 2 * max in a span: fewer than 2^32 + max checks in a window. */
  lemma TwiceMaxExactlyWhen(n: nat, max: nat, window: nat)
    requires max < WRAP && window > 0
    ensures SpanSafe(n, max, window) <==> n < WRAP + max
  {
    if n < WRAP + max {
      forall calls, ip, from
        | Forward(calls) && AllBefore(calls, from + window) && AtMost(OfIp(calls, ip), n, window)
        ensures Allowed(calls, ip, from, max, window) <= 2 * max
      {
        AnySpanAllowsTwiceMax(calls, ip, from, max, window);
      }
    } else {
      var calls := seq(WRAP + max, i => Call(0, 0));
      BurstWrapsOnce(calls, n, max, window);
      hide Forward, AllBefore, AtMost, OfIp, Allowed;
      assert !(Allowed(calls, 0, 0, max, window) <= 2 * max);
    }
  }

  /** 2^32 + max checks at one instant: the first max are allowed, and max + 1 more once the count has wrapped. */
  lemma BurstWrapsOnce(calls: seq<Call>, n: nat, max: nat, window: nat)
    requires max < WRAP && window > 0 && n >= WRAP + max
    requires |calls| == WRAP + max && forall i :: 0 <= i < |calls| ==> calls[i] == Call(0, 0)
    ensures Forward(calls) && AllBefore(calls, 0 + window) && AtMost(OfIp(calls, 0), n, window)
    ensures Allowed(calls, 0, 0, max, window) == 2 * max + 1
  {
    OwnAll(calls, 0);
    BurstCounts(calls, 0, max, window);
    AllowedOfWindow(WRAP + max, max);
    hide Allowed, OfIp, AllowedOf, Table;
  }

  lemma {:induction false} OwnAll(calls: seq<Call>, ip: Ip)
    requires AllOf(calls, ip)
    ensures OfIp(calls, ip) == calls
  {
    if calls != [] {
      OwnAll(calls[..|calls| - 1], ip);
    }
  }

  // ---- one window -----------------------------------------------------------

  lemma {:induction false} CountIsSinceStart(mine: seq<Call>, ip: Ip, window: nat) returns (s: nat)
    requires Forward(mine) && AllOf(mine, ip) && AtMost(mine, WRAP - 1, window)
    ensures Unwrapped(mine, ip, window)
    ensures mine != [] ==>
              && s < |mine| && ip in Table(mine, window)
              && mine[s].now == Table(mine, window)[ip].start && 1 <= Table(mine, window)[ip].count <= |mine| - s
  {
    s := 0;
    if mine != [] {
      var init, last := mine[..|mine| - 1], mine[|mine| - 1];
      assert forall i :: 0 <= i < |init| ==> init[i] == mine[i];
      s := CountIsSinceStart(init, ip, window);
      if init != [] && last.now - mine[s].now < window {
        assert |mine| - 1 - s < WRAP - 1;
      } else {
        s := |mine| - 1;
      }
    }
  }

  /** The count never wraps when fewer than 2^32 of the IP's own checks fall in any one window. */
  lemma RareEnoughNeverWraps(calls: seq<Call>, ip: Ip, window: nat)
    requires Forward(calls) && AtMost(OfIp(calls, ip), WRAP - 1, window)
    ensures Unwrapped(calls, ip, window)
  {
    OnlyOwnChecksMatter(calls, ip, 0, 0, window);
    OwnChecksAreOrdered(calls, ip, 0);
    var s := CountIsSinceStart(OfIp(calls, ip), ip, window);
  }

  /** All checks of the IP fall in the window its first one starts. */
  ghost predicate Burst(mine: seq<Call>, window: nat) {
    forall i :: 0 <= i < |mine| ==> mine[0].now <= mine[i].now < mine[0].now + window
  }

  lemma {:induction false} BurstCounts(mine: seq<Call>, ip: Ip, max: nat, window: nat)
    requires Burst(mine, window) && AllOf(mine, ip) && mine != []
    ensures ip in Table(mine, window) && Table(mine, window)[ip] == Entry(mine[0].now, |mine| % WRAP)
    ensures Allowed(mine, ip, mine[0].now, max, window) == AllowedOf(|mine|, max)
  {
    var init := mine[..|mine| - 1];
    if init != [] {
      assert forall i :: 0 <= i < |init| ==> init[i] == mine[i];
      BurstCounts(init, ip, max, window);
      NextModulo(|init|);
    }
  }

  lemma {:induction false} AllowedOfGrows(j: nat, k: nat, max: nat)
    requires j <= k
    ensures AllowedOf(j, max) <= AllowedOf(k, max)
  {
    if j < k {
      AllowedOfGrows(j, k - 1, max);
    }
  }

  /** An IP's burst inside one window is held to max checks exactly when it has fewer than 2^32, whatever other IPs do. */
  lemma BurstHeldToMaxExactlyWhen(calls: seq<Call>, ip: Ip, max: nat, window: nat)
    requires var mine := OfIp(calls, ip); mine != [] && Burst(mine, window)
    requires max < WRAP
    ensures Allowed(calls, ip, OfIp(calls, ip)[0].now, max, window) <= max <==> |OfIp(calls, ip)| < WRAP
    ensures |OfIp(calls, ip)| < WRAP ==>
              Allowed(calls, ip, OfIp(calls, ip)[0].now, max, window) == Min(|OfIp(calls, ip)|, max)
  {
    var mine := OfIp(calls, ip);
    OnlyOwnChecksMatter(calls, ip, mine[0].now, max, window);
    BurstCounts(mine, ip, max, window);
    if |mine| < WRAP {
      AllowedOfWindow(|mine|, max);
    } else {
      AllowedOfWindow(WRAP, max);
      AllowedOfGrows(WRAP, |mine|, max);
    }
  }

  /** An IP that has used up its window is let in again exactly from one window after that window's first check on. */
  lemma BlockedUntilWindowEnds(calls: seq<Call>, ip: Ip, max: nat, window: nat, now: int)
    requires var mine := OfIp(calls, ip); mine != [] && Burst(mine, window) && max <= |mine| < WRAP - 1
    requires max > 0
    ensures ip in Table(calls + [Call(ip, now)], window)
    ensures Table(calls + [Call(ip, now)], window)[ip].count <= max <==> now >= OfIp(calls, ip)[0].now + window
  {
    var mine := OfIp(calls, ip);
    OnlyOwnChecksMatter(calls, ip, 0, max, window);
    BurstCounts(mine, ip, max, window);
    assert (calls + [Call(ip, now)])[..|calls|] == calls;
    NextModulo(|mine|);
    hide OfIp, Burst;
  }
}
