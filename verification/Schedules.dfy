/** When jobs run: the daily, weekly and monthly rules, and the partitions the monthly run keeps ahead. */
module Schedules {
  import opened Calendar

  /** Nanoseconds since the start of year 1. */
  type Instant = int

  const MINUTE := 60_000_000_000
  const DAY := 86_400_000_000_000

  /** A time of day in a zone at a fixed offset. */
  datatype Clock = Clock(offset: int, hour: int, minute: int) {
    predicate Valid() { 0 <= hour < 24 && 0 <= minute < 60 }

    function OfDay(): int { (60 * hour + minute) * 60_000_000_000 }

    /** The day an instant falls on in the zone. */
    function Day(t: Instant): int { (t + offset) / 86_400_000_000_000 }

    /** The instant at which the zone's clock shows this time on the day. */
    function At(day: int): Instant { day * 86_400_000_000_000 + OfDay() - offset }

    predicate Shows(t: Instant) { t == At(Day(t)) }
  }

  lemma AtIsOnItsDay(c: Clock, day: int)
    requires c.Valid()
    ensures c.Day(c.At(day)) == day && c.Shows(c.At(day))
  {
    assert 0 <= c.OfDay() < DAY;
  }

  lemma AtGrows(c: Clock, a: int, b: int)
    ensures a <= b <==> c.At(a) <= c.At(b)
  {
  }

  lemma DayGrows(c: Clock, s: Instant, t: Instant)
    requires s <= t
    ensures c.Day(s) <= c.Day(t)
  {
  }

  lemma WithinADay(c: Clock, t: Instant)
    requires c.Valid()
    ensures c.At(c.Day(t)) - DAY < t < c.At(c.Day(t)) + DAY
  {
    assert 0 <= c.OfDay() < DAY;
  }

  /** The clock shows its hour and minute exactly when that much of the zone's day is gone. */
  lemma ShowsIff(c: Clock, t: Instant)
    requires c.Valid()
    ensures c.Shows(t) <==>
            (t + c.offset) % 86_400_000_000_000 == c.hour * 3_600_000_000_000 + c.minute * 60_000_000_000
    ensures c.Day(t) * 86_400_000_000_000 <= t + c.offset < c.Day(t) * 86_400_000_000_000 + 86_400_000_000_000
  {
    var gone := (t + c.offset) % 86_400_000_000_000;
    assert t + c.offset == c.Day(t) * 86_400_000_000_000 + gone;
  }

  /** The least instant strictly after `after` that matches. */
  ghost predicate IsNext(after: Instant, t: Instant, matches: Instant -> bool) {
    t > after && matches(t) && forall s :: after < s < t ==> !matches(s)
  }

  // -------------------------------------------------------------- daily, weekly

  function NextDailyAt(after: Instant, c: Clock): Instant {
    var candidate := c.At(c.Day(after));
    if candidate <= after then c.At(c.Day(after) + 1) else candidate
  }

  /** The daily rule gives the least instant after the argument at which the clock shows the time. */
  lemma DailyIsNext(after: Instant, c: Clock)
    requires c.Valid()
    ensures IsNext(after, NextDailyAt(after, c), t => c.Shows(t))
    ensures NextDailyAt(after, c) <= after + DAY
  {
    var today := c.Day(after);
    AtIsOnItsDay(c, today);
    AtIsOnItsDay(c, today + 1);
    WithinADay(c, after);
    forall s | after < s < NextDailyAt(after, c)
      ensures !c.Shows(s)
    {
      DayGrows(c, after, s);
      AtGrows(c, c.Day(s), today);
      AtGrows(c, today + 1, c.Day(s));
    }
  }

  predicate ShowsOn(c: Clock, weekday: int, t: Instant) {
    c.Shows(t) && Weekday(c.Day(t)) == weekday
  }

  /** Days until the weekday comes round. */
  function DaysUntil(day: int, weekday: int): (n: nat)
    requires 0 <= weekday < 7
    ensures Weekday(day + n) == weekday && n == (weekday - Weekday(day)) % 7
    ensures forall d :: day <= d < day + n ==> Weekday(d) != weekday
    decreases (weekday - Weekday(day)) % 7
  {
    if Weekday(day) == weekday then 0 else 1 + DaysUntil(day + 1, weekday)
  }

  method NextWeeklyAt(after: Instant, c: Clock, weekday: int) returns (candidate: Instant)
    requires 0 <= weekday < 7 && c.Valid()
    ensures IsNext(after, candidate, t => ShowsOn(c, weekday, t))
    ensures candidate <= after + 7 * DAY
  {
    candidate := NextDailyAt(after, c);
    DailyIsNext(after, c);
    ghost var first := c.Day(candidate);
    ghost var waited := 0;
    while Weekday(c.Day(candidate)) != weekday
      invariant candidate == c.At(first + waited) && c.Day(candidate) == first + waited
      invariant 0 <= waited <= DaysUntil(first, weekday)
      decreases DaysUntil(first, weekday) - waited
    {
      AtIsOnItsDay(c, first + waited + 1);
      candidate := candidate + DAY;
      waited := waited + 1;
    }
    AtIsOnItsDay(c, first + waited);
    forall s | after < s < candidate
      ensures !ShowsOn(c, weekday, s)
    {
      if c.Shows(s) {
        NoneBetween(after, c, s);
        AtGrows(c, first + waited, c.Day(s));
        assert Weekday(first + (c.Day(s) - first)) != weekday;
      }
    }
  }

  lemma NoneBetween(after: Instant, c: Clock, s: Instant)
    requires c.Valid() && after < s && c.Shows(s)
    ensures c.Day(NextDailyAt(after, c)) <= c.Day(s)
  {
    DailyIsNext(after, c);
    assert (t => c.Shows(t))(s);
    DayGrows(c, NextDailyAt(after, c), s);
  }

  // ------------------------------------------------------------------- monthly

  function Least(a: int, b: int): int { if a <= b then a else b }

  function MonthlyCandidate(year: int, month: int, day: int, c: Clock): Instant {
    var lastDay := DayOfMonth(DateDay(year, month + 1, 0));
    c.At(DateDay(year, month, Least(day, lastDay)))
  }

  /** The month the instant falls in, in the clock's zone. */
  function MonthAt(c: Clock, t: Instant): int { MonthOf(c.Day(t)) }

  function FollowingMonth(year: int, month: int): (int, int) {
    if month + 1 > 12 then (year + 1, 1) else (year, month + 1)
  }

  function NextMonthlyAt(after: Instant, day: int, c: Clock): Instant {
    var (year, month) := YearAndMonth(MonthAt(c, after));
    var candidate := MonthlyCandidate(year, month, day, c);
    if candidate > after then candidate
    else
      var (year', month') := FollowingMonth(year, month);
      MonthlyCandidate(year', month', day, c)
  }

  /** The day a monthly rule means in a month: short months stop at their last day. */
  function RuleDay(m: int, day: int): int { MonthStart(m) + Least(day, DaysIn(m)) - 1 }

  /** The clock shows the time on the rule's day of the month. */
  predicate ShowsMonthly(c: Clock, day: int, t: Instant) {
    c.Shows(t) && c.Day(t) == RuleDay(MonthAt(c, t), day)
  }

  /** On the day of the month asked for, or on the last when the month has no such day. */
  lemma ShowsMonthlyIff(c: Clock, day: int, t: Instant)
    requires day >= 1
    ensures var m := MonthAt(c, t);
            && (ShowsMonthly(c, day, t) <==>
                  c.Shows(t) && (DayOfMonth(c.Day(t)) == day || (day > DaysIn(m) && DayOfMonth(c.Day(t)) == DaysIn(m))))
            && 1 <= DayOfMonth(c.Day(t)) <= DaysIn(m)
  {
    var m := MonthAt(c, t);
    MonthsMeet(m);
    MonthIsUnique(c.Day(t), m);
  }

  lemma CandidateIsRuleDay(year: int, month: int, day: int, c: Clock)
    ensures MonthlyCandidate(year, month, day, c) == c.At(RuleDay(MonthIndex(year, month), day))
  {
    DayZeroIsLast(year, month);
  }

  lemma FollowingIsNext(m: int)
    ensures var (year, month) := YearAndMonth(m);
            var (year', month') := FollowingMonth(year, month);
            MonthIndex(year, month) == m && MonthIndex(year', month') == m + 1
  {
  }

  lemma NextMonthlyByIndex(after: Instant, day: int, c: Clock)
    ensures var m := MonthAt(c, after);
            NextMonthlyAt(after, day, c) ==
            if c.At(RuleDay(m, day)) > after then c.At(RuleDay(m, day)) else c.At(RuleDay(m + 1, day))
  {
    var (year, month) := YearAndMonth(MonthAt(c, after));
    var (year', month') := FollowingMonth(year, month);
    FollowingIsNext(MonthAt(c, after));
    CandidateIsRuleDay(year, month, day, c);
    CandidateIsRuleDay(year', month', day, c);
  }

  lemma RuleDayIsInItsMonth(m: int, day: int, c: Clock)
    requires c.Valid() && day >= 1
    ensures MonthOf(RuleDay(m, day)) == m
    ensures MonthAt(c, c.At(RuleDay(m, day))) == m && ShowsMonthly(c, day, c.At(RuleDay(m, day)))
  {
    MonthsMeet(m);
    MonthIsUnique(RuleDay(m, day), m);
    AtIsOnItsDay(c, RuleDay(m, day));
  }

  lemma RuleDaysGrow(m: int, n: int, day: int, c: Clock)
    requires day >= 1 && m < n
    ensures c.At(RuleDay(m, day)) < c.At(RuleDay(n, day))
  {
    MonthsMeet(m);
    if m + 1 < n {
      MonthStartGrows(m + 1, n);
    }
  }

  lemma MonthAtGrows(c: Clock, s: Instant, t: Instant)
    requires s <= t
    ensures MonthAt(c, s) <= MonthAt(c, t)
  {
    DayGrows(c, s, t);
    MonthOfGrows(c.Day(s), c.Day(t));
  }

  lemma LaterMonthIsAhead(m: int, day: int, c: Clock, t: Instant)
    requires c.Valid() && day >= 1 && MonthAt(c, t) < m
    ensures t < c.At(RuleDay(m, day))
  {
    RuleDayIsInItsMonth(m, day, c);
    if c.At(RuleDay(m, day)) <= t {
      MonthAtGrows(c, c.At(RuleDay(m, day)), t);
    }
  }

  lemma OneOfTheRules(m: int, n: int, day: int, c: Clock)
    requires day >= 1 && m <= n
    ensures c.At(RuleDay(m, day)) <= c.At(RuleDay(n, day))
    ensures m < n ==> c.At(RuleDay(m + 1, day)) <= c.At(RuleDay(n, day))
  {
    if m < n {
      RuleDaysGrow(m, n, day, c);
    }
    if m + 1 < n {
      RuleDaysGrow(m + 1, n, day, c);
    }
  }

  lemma NothingMonthlyBefore(after: Instant, day: int, c: Clock, s: Instant, next: Instant)
    requires c.Valid() && day >= 1 && after < s && ShowsMonthly(c, day, s)
    requires var m := MonthAt(c, after);
             next == if c.At(RuleDay(m, day)) > after then c.At(RuleDay(m, day)) else c.At(RuleDay(m + 1, day))
    ensures next <= s
  {
    MonthAtGrows(c, after, s);
    OneOfTheRules(MonthAt(c, after), MonthAt(c, s), day, c);
  }

  lemma ByIndexIsNext(after: Instant, day: int, c: Clock, next: Instant)
    requires c.Valid() && day >= 1
    requires var m := MonthAt(c, after);
             next == if c.At(RuleDay(m, day)) > after then c.At(RuleDay(m, day)) else c.At(RuleDay(m + 1, day))
    ensures IsNext(after, next, t => ShowsMonthly(c, day, t))
  {
    var m := MonthAt(c, after);
    RuleDayIsInItsMonth(m, day, c);
    RuleDayIsInItsMonth(m + 1, day, c);
    LaterMonthIsAhead(m + 1, day, c, after);
    forall s | after < s < next
      ensures !ShowsMonthly(c, day, s)
    {
      if ShowsMonthly(c, day, s) {
        NothingMonthlyBefore(after, day, c, s, next);
      }
    }
  }

  /** The monthly rule gives the least matching instant after the argument, leap years and year ends included. */
  lemma MonthlyIsNext(after: Instant, day: int, c: Clock)
    requires c.Valid() && day >= 1
    ensures IsNext(after, NextMonthlyAt(after, day, c), t => ShowsMonthly(c, day, t))
  {
    NextMonthlyByIndex(after, day, c);
    ByIndexIsNext(after, day, c, NextMonthlyAt(after, day, c));
  }

  // ---------------------------------------------------------------- partitions

  const UTC := Clock(0, 0, 0)

  datatype Bounds = Bounds(from: Instant, to: Instant)

  /** The month after a month's first instant, `offset` on: the first of a month never overflows. */
  function PartitionSpecFor(now: Instant, zone: Clock, offset: int): (b: Bounds)
    ensures b.from < b.to
  {
    var m := MonthAt(zone, now) + offset;
    MonthsMeet(m);
    Bounds(UTC.At(MonthStart(m)), UTC.At(MonthStart(m + 1)))
  }

  /** Consecutive partitions meet exactly, and each holds exactly the instants of its month. */
  lemma PartitionsMeet(now: Instant, zone: Clock, offset: int, t: Instant)
    ensures PartitionSpecFor(now, zone, offset).to == PartitionSpecFor(now, zone, offset + 1).from
    ensures var b := PartitionSpecFor(now, zone, offset);
            b.from <= t < b.to <==> MonthAt(UTC, t) == MonthAt(zone, now) + offset
  {
    InMonthIff(t, MonthAt(zone, now) + offset);
  }

  lemma InMonthIff(t: Instant, m: int)
    ensures UTC.At(MonthStart(m)) <= t < UTC.At(MonthStart(m + 1)) <==> MonthAt(UTC, t) == m
  {
    var day := UTC.Day(t);
    StartIff(t, MonthStart(m));
    StartIff(t, MonthStart(m + 1));
    if MonthStart(m) <= day < MonthStart(m + 1) {
      MonthIsUnique(day, m);
    }
  }

  lemma StartIff(t: Instant, day: int)
    ensures UTC.At(day) <= t <==> day <= UTC.Day(t)
  {
  }

  /** The instant is inside a partition that one of the runs made: its own month and the next. */
  ghost predicate Covered(runs: seq<Instant>, zone: Clock, t: Instant) {
    exists i, offset :: 0 <= i < |runs| && 0 <= offset <= 1 && Within(PartitionSpecFor(runs[i], zone, offset), t)
  }

  predicate Within(b: Bounds, t: Instant) { b.from <= t < b.to }

  ghost predicate NoMonthMissed(runs: seq<Instant>, zone: Clock) {
    forall i {:trigger runs[i]} :: 0 < i < |runs| ==> MonthAt(zone, runs[i]) <= MonthAt(zone, runs[i - 1]) + 2
  }

  ghost predicate Sorted(runs: seq<Instant>) {
    forall i, j :: 0 <= i <= j < |runs| ==> runs[i] <= runs[j]
  }

  lemma CoveredIff(runs: seq<Instant>, zone: Clock, t: Instant)
    ensures Covered(runs, zone, t) <==>
            exists i :: 0 <= i < |runs| && MonthAt(zone, runs[i]) <= MonthAt(UTC, t) <= MonthAt(zone, runs[i]) + 1
  {
    if i, offset :| 0 <= i < |runs| && 0 <= offset <= 1 && Within(PartitionSpecFor(runs[i], zone, offset), t) {
      PartitionsMeet(runs[i], zone, offset, t);
    }
    if i :| 0 <= i < |runs| && MonthAt(zone, runs[i]) <= MonthAt(UTC, t) <= MonthAt(zone, runs[i]) + 1 {
      var offset := MonthAt(UTC, t) - MonthAt(zone, runs[i]);
      PartitionsMeet(runs[i], zone, offset, t);
      assert Within(PartitionSpecFor(runs[i], zone, offset), t);
    }
  }

  lemma {:induction false} MonthsCover(months: seq<int>, m: int) returns (i: nat)
    requires months != [] && forall k {:trigger months[k]} :: 0 < k < |months| ==> months[k] <= months[k - 1] + 2
    requires months[0] <= m <= months[|months| - 1] + 1
    ensures i < |months| && months[i] <= m <= months[i] + 1
  {
    var n := |months| - 1;
    if months[n] <= m {
      i := n;
    } else {
      assert months[n] <= months[n - 1] + 2;
      i := MonthsCover(months[..n], m);
    }
  }

  /**
    With a run in every month, or even every other, no instant is left out from the first run's month
    to the month after the last.
   */
  lemma RunsCover(runs: seq<Instant>, zone: Clock, t: Instant)
    requires runs != [] && NoMonthMissed(runs, zone)
    requires MonthAt(zone, runs[0]) <= MonthAt(UTC, t) <= MonthAt(zone, runs[|runs| - 1]) + 1
    ensures Covered(runs, zone, t)
  {
    var months := seq(|runs|, i requires 0 <= i < |runs| => MonthAt(zone, runs[i]));
    forall k {:trigger months[k]} | 0 < k < |months|
      ensures months[k] <= months[k - 1] + 2
    {
      assert runs[k] == runs[k];
    }
    var i := MonthsCover(months, MonthAt(UTC, t));
    CoveredIff(runs, zone, t);
    assert MonthAt(zone, runs[i]) <= MonthAt(UTC, t) <= MonthAt(zone, runs[i]) + 1;
  }

  /** A longer gap does leave something out: the month two after the run before it. */
  lemma MissedMonthIsUncovered(runs: seq<Instant>, zone: Clock, i: nat)
    requires 0 < i < |runs| && Sorted(runs) && MonthAt(zone, runs[i]) > MonthAt(zone, runs[i - 1]) + 2
    ensures !Covered(runs, zone, UTC.At(MonthStart(MonthAt(zone, runs[i - 1]) + 2)))
  {
    var m := MonthAt(zone, runs[i - 1]) + 2;
    var t := UTC.At(MonthStart(m));
    MonthsMeet(m);
    InMonthIff(t, m);
    CoveredIff(runs, zone, t);
    forall j | 0 <= j < |runs|
      ensures !(MonthAt(zone, runs[j]) <= m <= MonthAt(zone, runs[j]) + 1)
    {
      if j < i {
        MonthAtGrows(zone, runs[j], runs[i - 1]);
      } else {
        MonthAtGrows(zone, runs[i], runs[j]);
      }
    }
  }

  // ----------------------------------------------------- the scheduled partitions

  const BANGKOK_AT_TWO := Clock(7 * 60 * MINUTE, 2, 0)

  /** The 25th at 02:00 in Bangkok is the same month everywhere within half a day of it. */
  lemma SameMonthInEveryZone(after: Instant, zone: Clock)
    requires -12 * 60 * MINUTE <= zone.offset <= 14 * 60 * MINUTE
    ensures var r := NextMonthlyAt(after, 25, BANGKOK_AT_TWO); MonthAt(zone, r) == MonthAt(BANGKOK_AT_TWO, r)
  {
    var r := NextMonthlyAt(after, 25, BANGKOK_AT_TWO);
    MonthlyIsNext(after, 25, BANGKOK_AT_TWO);
    assert (t => ShowsMonthly(BANGKOK_AT_TWO, 25, t))(r);
    var m := MonthAt(BANGKOK_AT_TWO, r);
    assert MonthStart(m) + 24 == BANGKOK_AT_TWO.Day(r);
    assert MonthStart(m) + 23 <= zone.Day(r) <= MonthStart(m) + 25;
    MonthsMeet(m);
    MonthIsUnique(zone.Day(r), m);
  }

  lemma ConsecutiveMonths(after: Instant)
    ensures var r := NextMonthlyAt(after, 25, BANGKOK_AT_TWO);
            MonthAt(BANGKOK_AT_TWO, NextMonthlyAt(r, 25, BANGKOK_AT_TWO)) == MonthAt(BANGKOK_AT_TWO, r) + 1
  {
    var c := BANGKOK_AT_TWO;
    var r := NextMonthlyAt(after, 25, c);
    MonthlyIsNext(after, 25, c);
    assert (t => ShowsMonthly(c, 25, t))(r);
    NextMonthlyByIndex(r, 25, c);
    RuleDayIsInItsMonth(MonthAt(c, r) + 1, 25, c);
  }

  /**
    From one scheduled run to the next, every event lands in a partition that the first of the two
    made, whatever zone the process runs in.
   */
  lemma ScheduledRunsStayAhead(after: Instant, zone: Clock, t: Instant)
    requires -12 * 60 * MINUTE <= zone.offset <= 14 * 60 * MINUTE
    requires var r := NextMonthlyAt(after, 25, BANGKOK_AT_TWO); r <= t <= NextMonthlyAt(r, 25, BANGKOK_AT_TWO)
    ensures Covered([NextMonthlyAt(after, 25, BANGKOK_AT_TWO)], zone, t)
  {
    var r := NextMonthlyAt(after, 25, BANGKOK_AT_TWO);
    var next := NextMonthlyAt(r, 25, BANGKOK_AT_TWO);
    SameMonthInEveryZone(after, zone);
    SameMonthInEveryZone(after, UTC);
    SameMonthInEveryZone(r, UTC);
    ConsecutiveMonths(after);
    MonthAtGrows(UTC, r, t);
    MonthAtGrows(UTC, t, next);
    CoveredIff([r], zone, t);
    assert [r][0] == r;
  }

  // ------------------------------------------------------------------ scheduler

  /** The earliest due time and the first schedule that has it. */
  method Earliest(times: seq<Instant>) returns (best: Instant, idx: nat)
    requires times != []
    ensures idx < |times| && best == times[idx]
    ensures forall i :: 0 <= i < |times| ==> best <= times[i] && (i < idx ==> best < times[i])
  {
    best, idx := times[0], 0;
    var rest := times[1..];
    for i := 0 to |rest|
      invariant idx <= i && best == times[idx]
      invariant forall j :: 0 <= j <= i ==> best <= times[j] && (j < idx ==> best < times[j])
    {
      if rest[i] < best {
        best, idx := rest[i], i + 1;
      }
    }
  }
}
