/**
 A player's week streaks and weekly chart. Dates are day numbers, day 0 being a
 Monday; a week is the day number of its Monday.
 */
module Streaks {
  import opened Wrappers

  type Day = int

  function WeekStart(d: Day): (w: Day)
    ensures w % 7 == 0 && w <= d < w + 7
  {
    d - d % 7
  }

  /** The week i weeks before w. */
  function Back(w: Day, i: int): Day {
    w - 7 * i
  }

  /** n consecutive played weeks, the last one being `last`. */
  ghost predicate IsRun(weeks: seq<Day>, last: Day, n: nat) {
    forall i :: 0 <= i < n ==> Back(last, i) in weeks
  }

  ghost predicate NoRunOver(weeks: seq<Day>, best: nat) {
    forall last: Day, n: nat :: IsRun(weeks, last, n) ==> n <= best
  }

  ghost predicate Ascending(days: seq<Day>) {
    forall i, j :: 0 <= i < j < |days| ==> days[i] < days[j]
  }

  /** The played weeks of some dates: ascending Mondays, each the week of some date. */
  ghost predicate WeeksOf(weeks: seq<Day>, dates: seq<Day>) {
    && Ascending(weeks)
    && (forall w :: w in weeks ==> w % 7 == 0)
    && (forall w :: w in weeks <==> exists d :: d in dates && WeekStart(d) == w)
  }

  /** Collect the distinct weeks of ascending dates, in order. */
  method CollectWeeks(dates: seq<Day>) returns (weeks: seq<Day>)
    requires Ascending(dates)
    ensures WeeksOf(weeks, dates)
  {
    weeks := [];
    for k := 0 to |dates|
      invariant WeeksOf(weeks, dates[..k])
      invariant weeks != [] ==> k > 0 && weeks[|weeks| - 1] == WeekStart(dates[k - 1])
      invariant k > 0 ==> weeks != []
    {
      var w := WeekStart(dates[k]);
      assert dates[..k + 1] == dates[..k] + [dates[k]];
      if weeks == [] || weeks[|weeks| - 1] != w {
        ghost var before := weeks;
        assert k > 0 ==> dates[k - 1] < dates[k];
        weeks := weeks + [w];
        assert forall v :: v in weeks <==> v in before || v == w;
      }
    }
    assert dates[..|dates|] == dates;
  }

  /** The week the current streak is counted from: this week, or last week while this one is unplayed. */
  function Anchor(weeks: seq<Day>, today: Day): Day {
    if WeekStart(today) in weeks then WeekStart(today) else Back(WeekStart(today), 1)
  }

  /** The current streak is the maximal run ending at its anchor. */
  method CurrentStreak(weeks: seq<Day>, today: Day) returns (n: nat)
    requires Ascending(weeks)
    ensures IsRun(weeks, Anchor(weeks, today), n)
    ensures Back(Anchor(weeks, today), n) !in weeks
  {
    var cursor := WeekStart(today);
    if cursor !in weeks {
      cursor := cursor - 7;
    }
    n := 0;
    ghost var floor := if weeks == [] then 0 else weeks[0];
    while cursor in weeks
      invariant cursor == Back(Anchor(weeks, today), n)
      invariant IsRun(weeks, Anchor(weeks, today), n)
      decreases cursor - floor + 7
    {
      n := n + 1;
      cursor := cursor - 7;
    }
  }

  function Max(a: nat, b: nat): nat {
    if a > b then a else b
  }

  /** The best streak is the length of the longest run. */
  method BestStreak(weeks: seq<Day>) returns (best: nat)
    requires Ascending(weeks) && forall w :: w in weeks ==> w % 7 == 0
    ensures exists last :: IsRun(weeks, last, best)
    ensures NoRunOver(weeks, best)
  {
    best := 0;
    var run: nat := 0;
    var prev: Option<Day> := None;
    assert IsRun(weeks[..0], 0, 0);
    NoRunInNothing();
    for k := 0 to |weeks|
      invariant prev == if k == 0 then None else Some(weeks[k - 1])
      invariant k > 0 ==> IsRun(weeks[..k], weeks[k - 1], run) && Back(weeks[k - 1], run) !in weeks[..k]
      invariant exists last :: IsRun(weeks[..k], last, best)
      invariant NoRunOver(weeks[..k], best)
    {
      ghost var seen, last := weeks[..k], Longest(weeks[..k], best);
      var w := weeks[k];
      run := if prev.Some? && w - prev.value == 7 then run + 1 else 1;
      ghost var next := weeks[..k + 1];
      assert next == seen + [w] && forall v :: v in next ==> v in weeks;
      NextWeek(seen, w, run);
      best := Max(best, run);
      prev := Some(w);
      forall l: Day, n: nat | IsRun(next, l, n) ensures n <= best {
        RunSplits(seen, w, run, l, n);
      }
      assert IsRun(next, if best == run then w else last, best);
    }
    assert weeks[..|weeks|] == weeks;
  }

  ghost function Longest(weeks: seq<Day>, best: nat): (last: Day)
    requires exists l :: IsRun(weeks, l, best)
    ensures IsRun(weeks, last, best)
  {
    var l :| IsRun(weeks, l, best);
    l
  }

  lemma NoRunInNothing()
    ensures NoRunOver([], 0)
  {
    forall last: Day, n: nat | IsRun([], last, n) ensures n <= 0 {
      assert n > 0 ==> Back(last, 0) in [];
    }
  }

  /** The maximal run ending at the week after `seen`. */
  lemma NextWeek(seen: seq<Day>, w: Day, run: nat)
    requires Ascending(seen + [w]) && (forall v :: v in seen + [w] ==> v % 7 == 0) && run > 0
    requires if seen != [] && w - seen[|seen| - 1] == 7
             then IsRun(seen, seen[|seen| - 1], run - 1) && Back(seen[|seen| - 1], run - 1) !in seen
             else run == 1
    ensures IsRun(seen + [w], w, run) && Back(w, run) !in seen + [w]
  {
    if seen != [] && w - seen[|seen| - 1] == 7 {
      forall i | 0 <= i < run ensures Back(w, i) in seen + [w] {
        if i > 0 {
          assert Back(w, i) == Back(seen[|seen| - 1], i - 1);
        }
      }
      assert Back(w, run) == Back(seen[|seen| - 1], run - 1);
    } else if seen != [] {
      LastIsNearest(seen, w);
    }
  }

  /** If the week before w was played, it is the last one seen. */
  lemma LastIsNearest(seen: seq<Day>, w: Day)
    requires seen != [] && Ascending(seen + [w]) && forall v :: v in seen + [w] ==> v % 7 == 0
    ensures Back(w, 1) in seen ==> seen[|seen| - 1] == Back(w, 1)
  {
    var last := seen[|seen| - 1];
    assert (seen + [w])[|seen| - 1] == last && (seen + [w])[|seen|] == w && last in seen + [w] && w in seen + [w];
    forall v | v in seen ensures v <= last {
      var i :| 0 <= i < |seen| && seen[i] == v;
      assert (seen + [w])[i] == v;
    }
    assert last % 7 == 0 && w % 7 == 0 && last < w;
  }

  /** A run over seen + [w] lies in `seen` or is the end of the run at w. */
  lemma RunSplits(seen: seq<Day>, w: Day, run: nat, last: Day, n: nat)
    requires Ascending(seen + [w]) && IsRun(seen + [w], last, n) && Back(w, run) !in seen + [w]
    ensures n <= run || IsRun(seen, last, n)
  {
    if !IsRun(seen, last, n) {
      var i :| 0 <= i < n && Back(last, i) !in seen;
      assert Back(last, i) in seen + [w] && Back(last, 0) in seen + [w];
      var j :| 0 <= j < |seen + [w]| && (seen + [w])[j] == last;
      assert last <= w == (seen + [w])[|seen|];
      assert last == w;
      assert n > run ==> Back(last, run) in seen + [w];
    }
  }

  /** The current streak never exceeds the best one, and is positive exactly when this or last week was played. */
  lemma CurrentAtMostBest(weeks: seq<Day>, today: Day, current: nat, best: nat)
    requires IsRun(weeks, Anchor(weeks, today), current) && Back(Anchor(weeks, today), current) !in weeks
    requires NoRunOver(weeks, best)
    ensures current <= best
    ensures current > 0 <==> WeekStart(today) in weeks || Back(WeekStart(today), 1) in weeks
  {
    assert current > 0 ==> Back(Anchor(weeks, today), 0) in weeks;
  }

  // ---- in terms of the dates played -----------------------------------------

  ghost predicate Played(dates: seq<Day>, w: Day) {
    exists d :: d in dates && WeekStart(d) == w
  }

  ghost predicate PlayedRun(dates: seq<Day>, last: Day, n: nat) {
    forall i :: 0 <= i < n ==> Played(dates, Back(last, i))
  }

  /** This week if played, else last week. */
  ghost function CountedFrom(dates: seq<Day>, today: Day): Day {
    if Played(dates, WeekStart(today)) then WeekStart(today) else Back(WeekStart(today), 1)
  }

  /** Both streaks of a player, in terms of the dates played. */
  method WeekStreaks(dates: seq<Day>, today: Day) returns (current: nat, best: nat)
    requires Ascending(dates)
    ensures PlayedRun(dates, CountedFrom(dates, today), current)
    ensures !Played(dates, Back(CountedFrom(dates, today), current))
    ensures exists last :: PlayedRun(dates, last, best)
    ensures forall last: Day, n: nat :: PlayedRun(dates, last, n) ==> n <= best
    ensures current <= best
  {
    var weeks := CollectWeeks(dates);
    assert forall w :: Played(dates, w) <==> w in weeks;
    assert forall last: Day, n: nat :: PlayedRun(dates, last, n) <==> IsRun(weeks, last, n);
    current := CurrentStreak(weeks, today);
    best := BestStreak(weeks);
    CurrentAtMostBest(weeks, today, current, best);
    hide WeeksOf, Played;
  }

  // ---- the weekly chart -----------------------------------------------------

  function Distance(a: int, b: int): nat {
    if a < b then b - a else a - b
  }

  /**
   Weeks charted: the number of 1..26 nearest to a custom range; without one the
   presets, 5 weeks below three months, 13 below six, else 26.
   */
  function ChartWeeks(months: Option<nat>, weeks: Option<int>): (n: nat)
    ensures 1 <= n <= 26
    ensures weeks.Some? ==> forall k :: 1 <= k <= 26 ==> Distance(n, weeks.value) <= Distance(k, weeks.value)
    ensures weeks.None? ==> n in {5, 13, 26}
    ensures weeks.None? ==>
              var m := if months.Some? then months.value else 1;
              (n == 5 <==> m < 3) && (n == 26 <==> m >= 6)
  {
    if weeks.Some? then (if weeks.value < 1 then 1 else if weeks.value > 26 then 26 else weeks.value)
    else
      var m := if months.Some? then months.value else 1;
      if m >= 6 then 26 else if m >= 3 then 13 else 5
  }

  function CountIn(dates: seq<Day>, from: Day, until: Day): nat {
    if dates == [] then 0
    else CountIn(dates[..|dates| - 1], from, until) + if from <= dates[|dates| - 1] < until then 1 else 0
  }

  datatype Bucket = Bucket(weekStart: Day, sessions: nat)

  function Total(buckets: seq<Bucket>): nat {
    if buckets == [] then 0 else Total(buckets[..|buckets| - 1]) + buckets[|buckets| - 1].sessions
  }

  lemma {:induction false} CountSplits(dates: seq<Day>, from: Day, mid: Day, until: Day)
    requires from <= mid <= until
    ensures CountIn(dates, from, mid) + CountIn(dates, mid, until) == CountIn(dates, from, until)
  {
    if dates != [] {
      CountSplits(dates[..|dates| - 1], from, mid, until);
    }
  }

  /** A date of the past is charted exactly when it is not before the first week charted. */
  lemma {:induction false} PastIsBeforeNextWeek(dates: seq<Day>, from: Day, today: Day)
    requires forall i :: 0 <= i < |dates| ==> dates[i] <= today
    ensures CountIn(dates, from, WeekStart(today) + 7) == CountIn(dates, from, today + 1)
  {
    if dates != [] {
      PastIsBeforeNextWeek(dates[..|dates| - 1], from, today);
    }
  }

  method CountSessions(dates: seq<Day>, from: Day, until: Day) returns (n: nat)
    ensures n == CountIn(dates, from, until)
  {
    n := 0;
    for i := 0 to |dates|
      invariant n == CountIn(dates[..i], from, until)
    {
      assert dates[..i + 1][..i] == dates[..i];
      if from <= dates[i] < until {
        n := n + 1;
      }
    }
    assert dates[..|dates|] == dates;
  }

  /** The chart's column for the week i weeks before this one. */
  function WeekBucket(dates: seq<Day>, today: Day, i: nat): Bucket {
    var ws := Back(WeekStart(today), i);
    Bucket(ws, CountIn(dates, ws, ws + 7))
  }

  /**
   The buckets are the charted weeks, oldest first, each with the dates of its
   week; together they count every date from the first charted week on, once.
   */
  method WeeklySessions(dates: seq<Day>, today: Day, chartWeeks: nat) returns (buckets: seq<Bucket>)
    requires chartWeeks > 0 && forall i :: 0 <= i < |dates| ==> dates[i] <= today
    ensures |buckets| == chartWeeks
    ensures forall j :: 0 <= j < chartWeeks ==> buckets[j] == WeekBucket(dates, today, chartWeeks - 1 - j)
    ensures Total(buckets) == CountIn(dates, Back(WeekStart(today), chartWeeks - 1), today + 1)
  {
    buckets := [];
    ghost var thisWeek, first := WeekStart(today), Back(WeekStart(today), chartWeeks - 1);
    CountNothing(dates, first);
    PastIsBeforeNextWeek(dates, first, today);
    for i := chartWeeks downto 0
      invariant |buckets| == chartWeeks - i
      invariant forall j :: 0 <= j < |buckets| ==> buckets[j] == WeekBucket(dates, today, chartWeeks - 1 - j)
      invariant Total(buckets) == CountIn(dates, first, Back(thisWeek, i - 1))
    {
      var ws := WeekStart(today) - 7 * i;
      var sessions := CountSessions(dates, ws, ws + 7);
      CountSplits(dates, first, ws, ws + 7);
      TotalAppends(buckets, Bucket(ws, sessions));
      assert Bucket(ws, sessions) == WeekBucket(dates, today, i);
      hide WeekBucket, CountIn, Total, WeekStart;
      buckets := buckets + [Bucket(ws, sessions)];
    }
  }

  lemma TotalAppends(buckets: seq<Bucket>, b: Bucket)
    ensures Total(buckets + [b]) == Total(buckets) + b.sessions
  {
  }

  lemma {:induction false} CountNothing(dates: seq<Day>, from: Day)
    ensures CountIn(dates, from, from) == 0
  {
    if dates != [] {
      CountNothing(dates[..|dates| - 1], from);
    }
  }
}
