/**
 Recurrence patterns: expanding one over a window yields disjoint ascending intervals that together hold
 exactly the instants of the window at which the pattern applies.
*/
module Recurrence {
  import opened Calendar

  type Instant = int

  datatype Interval = Interval(start: Instant, end: Instant)

  datatype Frequency = Daily | Weekly | Monthly | Yearly | Unknown

  /** Durations are in nanoseconds; bit 0 of the mask is Monday. */
  datatype Pattern = Pattern(frequency: Frequency, days: bv8, dayOfMonth: int, month: int, dayStart: int, dayEnd: int)

  datatype Expansion = InvalidTimeRange | SpanTooLarge | InvalidPattern | Expanded(intervals: seq<Interval>)

  const MILLISECOND: int := 1_000_000
  const DAY: int := 86_400_000
  const MAX_INT64: int := 0x7FFF_FFFF_FFFF_FFFF
  const MAX_SPAN: int := 1000 * 365 * 24 * 60 * 60 * 1000

  // ---------- patterns ----------

  predicate ByDay(p: Pattern) { p.frequency.Daily? || p.frequency.Weekly? }

  predicate Valid(p: Pattern) {
    && !p.frequency.Unknown?
    && 0 <= p.dayStart < p.dayEnd <= DAY * MILLISECOND
    && p.dayStart % MILLISECOND == 0 && p.dayEnd % MILLISECOND == 0
    && (ByDay(p) ==> p.days != 0 && p.days & 0x80 == 0)
    && (p.frequency.Monthly? || p.frequency.Yearly? ==> 0 <= p.dayOfMonth <= 28)
    && (p.frequency.Yearly? ==> 0 <= p.month <= 12)
  }

  function Bit(weekday: int): bv8
    requires 0 <= weekday < 7
  {
    if weekday == 0 then 1 else if weekday == 1 then 2 else if weekday == 2 then 4 else if weekday == 3 then 8
    else if weekday == 4 then 16 else if weekday == 5 then 32 else 64
  }

  predicate DayMatches(day: int, days: bv8) { days & Bit(Weekday(day)) != 0 }

  /** The day of month k that the pattern names, the last one for 0. */
  function DayIn(p: Pattern, starts: int -> int, k: int): int {
    if p.dayOfMonth == 0 then starts(k + 1) - 1 else starts(k) + p.dayOfMonth - 1
  }

  /** January if no month is given; months count from 0. */
  function MonthIndex(p: Pattern): int { if p.month == 0 then 0 else p.month - 1 }

  /** Whether the pattern applies on a calendar day. */
  function Applies(p: Pattern, starts: int -> int): int -> bool
    requires IsCalendar(starts)
  {
    (day: int) =>
      if ByDay(p) then DayMatches(day, p.days)
      else day == DayIn(p, starts, MonthOf(starts, day)) && (p.frequency.Yearly? ==>
          MonthOf(starts, day) % 12 == MonthIndex(p))
  }

  // ---------- coverage ----------

  /** Days that apply, the span of the day that counts, and the window. */
  datatype Schedule = Schedule(applies: int -> bool, lo: int, hi: int, from: Instant, to: Instant)

  /** The instant lies in the window, on a day that applies, within the span of the day. */
  ghost predicate Due(w: Schedule, t: Instant) {
    w.from <= t < w.to && w.applies(t / DAY) && w.lo <= t % DAY < w.hi
  }

  ghost predicate Inside(rs: seq<Interval>, t: Instant) {
    exists i :: 0 <= i < |rs| && rs[i].start <= t < rs[i].end
  }

  /** No interval reaches over midnight, and no two are on one day. */
  ghost predicate OnePerDay(rs: seq<Interval>) {
    && (forall i :: 0 <= i < |rs| ==> rs[i].end <= (rs[i].start / DAY + 1) * DAY)
    && (forall i, j :: 0 <= i < j < |rs| ==> rs[i].start / DAY < rs[j].start / DAY)
  }

  /** Non-empty, ascending, disjoint intervals within the window and before the given day. */
  ghost predicate Tidy(rs: seq<Interval>, w: Schedule, limit: int) {
    && (forall i :: 0 <= i < |rs| ==> w.from <= rs[i].start < rs[i].end <= w.to && rs[i].end <= limit * DAY)
    && (forall i, j :: 0 <= i < j < |rs| ==> rs[i].end <= rs[j].start)
    && OnePerDay(rs)
  }

  /** The intervals hold exactly the due instants before the given day. */
  ghost predicate Complete(rs: seq<Interval>, w: Schedule, limit: int) {
    forall t :: Inside(rs, t) <==> Due(w, t) && t < limit * DAY
  }

  ghost predicate Covers(rs: seq<Interval>, w: Schedule, limit: int) { Tidy(rs, w, limit) && Complete(rs, w, limit) }

  /** The occurrence of a day, clipped to the window. */
  function Occurrence(w: Schedule, day: int): Interval {
    var start, end := day * DAY + w.lo, day * DAY + w.hi;
    Interval(if start < w.from then w.from else start, if end > w.to then w.to else end)
  }

  // Splitting an instant into day and time of day.
  lemma DayOf(t: Instant, day: int)
    ensures t / DAY == day <==> day * DAY <= t < (day + 1) * DAY
    ensures t / DAY == day ==> t % DAY == t - day * DAY
    ensures t / DAY < day <==> t < day * DAY
  {
  }

  /** On a day that applies, the due instants are those of its occurrence. */
  lemma DueOnDay(w: Schedule, day: int, t: Instant)
    requires 0 <= w.lo < w.hi <= DAY && w.applies(day)
    ensures day * DAY <= t < (day + 1) * DAY ==> (Due(w, t) <==> Occurrence(w, day).start <= t < Occurrence(w, day).end)
    ensures Occurrence(w, day).start <= t < Occurrence(w, day).end ==> day * DAY <= t < (day + 1) * DAY
  {
    DayOf(t, day);
  }

  lemma InsideAppended(rs: seq<Interval>, r: Interval, t: Instant)
    ensures Inside(rs + [r], t) <==> Inside(rs, t) || r.start <= t < r.end
  {
    var qs := rs + [r];
    if Inside(rs, t) {
      var i :| 0 <= i < |rs| && rs[i].start <= t < rs[i].end;
      assert qs[i].start <= t < qs[i].end;
    }
    if r.start <= t < r.end {
      assert qs[|rs|].start <= t < qs[|rs|].end;
    }
  }

  lemma OnePerDayNext(rs: seq<Interval>, w: Schedule, day: int)
    requires 0 <= w.lo < w.hi <= DAY && Tidy(rs, w, day)
    ensures var r := Occurrence(w, day); r.start < r.end ==> OnePerDay(rs + [r])
  {
    var r := Occurrence(w, day);
    if r.start < r.end {
      DayOf(r.start, day);
      forall i | 0 <= i < |rs|
        ensures rs[i].start / DAY < day
      {
        DayOf(rs[i].start, day);
      }
    }
  }

  /** Processing a day that applies. */
  lemma CoversNext(rs: seq<Interval>, w: Schedule, day: int)
    requires 0 <= w.lo < w.hi <= DAY && w.applies(day) && Covers(rs, w, day)
    ensures var r := Occurrence(w, day); Covers(if r.start < r.end then rs + [r] else rs, w, day + 1)
  {
    var r := Occurrence(w, day);
    var qs := if r.start < r.end then rs + [r] else rs;
    OnePerDayNext(rs, w, day);
    forall t
      ensures Inside(qs, t) <==> Due(w, t) && t < (day + 1) * DAY
    {
      InsideAppended(rs, r, t);
      DueOnDay(w, day, t);
    }
  }

  /** Passing over days that do not apply. */
  lemma CoversSkip(rs: seq<Interval>, w: Schedule, day: int, next: int)
    requires day <= next && Covers(rs, w, day) && forall x :: day <= x < next ==> !w.applies(x)
    ensures Covers(rs, w, next)
  {
    forall t
      ensures Inside(rs, t) <==> Due(w, t) && t < next * DAY
    {
      DayOf(t, day);
      DayOf(t, next);
    }
  }

  /** Nothing is due before the first day. */
  lemma CoversNothing(w: Schedule, day: int)
    requires day * DAY <= w.from
    ensures Covers([], w, day)
  {
  }

  // ---------- 64-bit arithmetic ----------

  /** Every day that is looked at is near the window; appending an occurrence demands it. */
  predicate Near(w: Schedule, day: int) { w.from / DAY - 400 <= day <= w.to / DAY + 400 }

  /** The window keeps 402 days away from the ends of the 64-bit range. */
  predicate AwayFromEnds(w: Schedule) { -MAX_INT64 + 402 * DAY <= w.from && w.to <= MAX_INT64 - 402 * DAY }

  predicate Fits64(t: Instant) { -MAX_INT64 - 1 <= t <= MAX_INT64 }

  /** Away from the ends no midnight and no bound of a day's occurrence overflows. */
  lemma NearFits64(w: Schedule, day: int)
    requires AwayFromEnds(w) && Near(w, day) && 0 <= w.lo < w.hi <= DAY
    ensures Fits64(day * DAY) && Fits64(day * DAY + w.lo) && Fits64(day * DAY + w.hi)
  {
    DayOf(w.from, w.from / DAY);
    DayOf(w.to, w.to / DAY);
  }

  method AppendOccurrence(rs: seq<Interval>, w: Schedule, day: int) returns (qs: seq<Interval>)
    requires 0 <= w.lo < w.hi <= DAY && w.applies(day) && Covers(rs, w, day) && Near(w, day)
    ensures Covers(qs, w, day + 1)
  {
    CoversNext(rs, w, day);
    var r := Occurrence(w, day);
    if r.start >= r.end {
      return rs;
    }
    qs := rs + [r];
  }

  // ---------- by weekday ----------

  lemma SomeBit(days: bv8)
    requires days != 0 && days & 0x80 == 0
    ensures days & 1 != 0 || days & 2 != 0 || days & 4 != 0 || days & 8 != 0 || days & 16 != 0 || days & 32 != 0
        || days & 64 != 0
  {
  }

  /** The offset from a day to the next day with the given weekday. */
  lemma WeekdayAhead(day: int, weekday: int) returns (offset: int)
    requires 0 <= weekday < 7
    ensures 0 <= offset < 7 && Weekday(day + offset) == weekday
  {
    offset := (weekday - Weekday(day)) % 7;
  }

  lemma SomeWeekday(days: bv8) returns (weekday: int)
    requires days != 0 && days & 0x80 == 0
    ensures 0 <= weekday < 7 && days & Bit(weekday) != 0
  {
    SomeBit(days);
    weekday := if days & 1 != 0 then 0 else if days & 2 != 0 then 1 else if days & 4 != 0 then 2
        else if days & 8 != 0 then 3
               else if days & 16 != 0 then 4 else if days & 32 != 0 then 5 else 6;
  }

  /** Some day of any seven in a row matches. */
  lemma MatchWithinWeek(day: int, days: bv8)
    requires days != 0 && days & 0x80 == 0
    ensures !NoMatch(days, day, day + 7)
  {
    var weekday := SomeWeekday(days);
    var offset := WeekdayAhead(day, weekday);
    assert DayMatches(day + offset, days);
  }

  ghost predicate NoMatch(days: bv8, lo: int, hi: int) { forall x :: lo <= x < hi ==> !DayMatches(x, days) }

  /** The first matching day of a range. */
  method FirstMatchingDayOnOrAfter(start: int, end: int, days: bv8) returns (day: int, ok: bool)
    requires days != 0 && days & 0x80 == 0
    ensures ok ==> start <= day <= end && DayMatches(day, days) && NoMatch(days, start, day)
    ensures !ok ==> NoMatch(days, start, end + 1)
  {
    for offset := 0 to 7
      invariant NoMatch(days, start, start + offset)
    {
      day := start + offset;
      if day > end {
        return 0, false;
      }
      if DayMatches(day, days) {
        return day, true;
      }
    }
    MatchWithinWeek(start, days);
    assert false;
  }

  /** The next matching day; the search never runs past a week. */
  method NextMatchingDay(day: int, days: bv8) returns (next: int)
    requires days != 0 && days & 0x80 == 0
    ensures day < next <= day + 7 && DayMatches(next, days) && NoMatch(days, day + 1, next)
  {
    for offset := 1 to 8
      invariant NoMatch(days, day + 1, day + offset)
    {
      next := day + offset;
      if DayMatches(next, days) {
        return;
      }
    }
    MatchWithinWeek(day + 1, days);
    assert false;
  }

  /** The schedule of a pattern over a window. */
  function ScheduleOf(p: Pattern, starts: int -> int, from: Instant, to: Instant): Schedule
    requires IsCalendar(starts)
  {
    Schedule(Applies(p, starts), p.dayStart / MILLISECOND, p.dayEnd / MILLISECOND, from, to)
  }

  method ExpandByDay(p: Pattern, starts: int -> int, from: Instant, to: Instant) returns (rs: seq<Interval>)
    requires IsCalendar(starts) && Valid(p) && ByDay(p) && from < to
    ensures Covers(rs, ScheduleOf(p, starts, from, to), to / DAY + 1)
  {
    var w, endDay := ScheduleOf(p, starts, from, to), to / DAY;
    rs := [];
    CoversNothing(w, from / DAY);
    var day, ok := FirstMatchingDayOnOrAfter(from / DAY, endDay, p.days);
    if !ok {
      CoversSkip(rs, w, from / DAY, endDay + 1);
      return;
    }
    CoversSkip(rs, w, from / DAY, day);
    while day <= endDay
      invariant DayMatches(day, p.days) && Covers(rs, w, day)
      invariant from / DAY <= day
      decreases endDay + 7 - day
    {
      rs := AppendOccurrence(rs, w, day);
      var next := NextMatchingDay(day, p.days);
      CoversSkip(rs, w, day + 1, next);
      day := next;
    }
    CoversBack(rs, w, endDay + 1, day);
  }

  /** Beyond the end of the window the limit does not matter. */
  lemma CoversBack(rs: seq<Interval>, w: Schedule, limit: int, day: int)
    requires w.to < limit * DAY && limit <= day && Covers(rs, w, day)
    ensures Covers(rs, w, limit)
  {
  }

  // ---------- by month ----------

  /** Within month k the pattern applies on the day it names, and on no other. */
  lemma AppliesInMonth(p: Pattern, starts: int -> int, k: int, x: int)
    requires IsCalendar(starts) && Valid(p) && !ByDay(p) && InMonth(starts, x, k)
    ensures Applies(p, starts)(x) <==> x == DayIn(p, starts, k) && (p.frequency.Yearly? ==> k % 12 == MonthIndex(p))
  {
    OneMonth(starts, x, k, MonthOf(starts, x));
  }

  lemma DayInMonth(p: Pattern, starts: int -> int, k: int)
    requires IsCalendar(starts) && Valid(p) && !ByDay(p)
    ensures InMonth(starts, DayIn(p, starts, k), k)
  {
    assert starts(k) + 28 <= starts(k + 1);
  }

  // A stretch of one month in which no day is the one named.
  lemma NoneApplies(p: Pattern, starts: int -> int, k: int, lo: int, hi: int)
    requires IsCalendar(starts) && Valid(p) && !ByDay(p) && starts(k) <= lo && hi <= starts(k + 1)
    requires (p.frequency.Yearly? && k % 12 != MonthIndex(p)) || hi <= DayIn(p, starts, k) || DayIn(p, starts, k) < lo
    ensures forall x :: lo <= x < hi ==> !Applies(p, starts)(x)
  {
    forall x | lo <= x < hi
      ensures !Applies(p, starts)(x)
    {
      AppliesInMonth(p, starts, k, x);
    }
  }

  /** One month in which the pattern applies. */
  method AppendMonth(rs: seq<Interval>, p: Pattern, starts: int -> int, from: Instant, to: Instant,
      k: int) returns (qs: seq<Interval>)
    requires IsCalendar(starts) && Valid(p) && !ByDay(p) && (p.frequency.Yearly? ==> k % 12 == MonthIndex(p))
    requires Covers(rs, ScheduleOf(p, starts, from, to), starts(k))
    requires from / DAY - 400 <= starts(k) && starts(k + 1) <= to / DAY + 400
    ensures Covers(qs, ScheduleOf(p, starts, from, to), starts(k + 1))
  {
    var w, day := ScheduleOf(p, starts, from, to), DayIn(p, starts, k);
    DayInMonth(p, starts, k);
    AppliesInMonth(p, starts, k, day);
    NoneApplies(p, starts, k, starts(k), day);
    NoneApplies(p, starts, k, day + 1, starts(k + 1));
    CoversSkip(rs, w, starts(k), day);
    qs := AppendOccurrence(rs, w, day);
    CoversSkip(qs, w, day + 1, starts(k + 1));
  }

  // A month that starts by the window's first day starts by the window.
  lemma StartsBefore(first: int, from: Instant)
    requires first <= from / DAY
    ensures first * DAY <= from
  {
    DayOf(from, first);
  }

  // A month that shares its year with one between the window's first and last month lies near the window.
  lemma MonthIsNear(starts: int -> int, a: int, b: int, first: int, last: int, k: int)
    requires IsCalendar(starts) && InMonth(starts, a, first) && InMonth(starts, b, last) && first - 11 <= k <= last + 11
    ensures a - 400 <= starts(k) && starts(k + 1) <= b + 400
  {
    assert starts(first + 1) <= starts(first) + 31;
    if first <= k {
      MonthsAscend(starts, first, k);
    } else {
      MonthsAscend(starts, k, first);
    }
    if k <= last {
      MonthsAscend(starts, k + 1, last + 1);
    } else {
      MonthsAscend(starts, last + 1, k + 1);
    }
    assert starts(last + 1) <= starts(last) + 31;
  }

  method ExpandMonthly(p: Pattern, starts: int -> int, from: Instant, to: Instant) returns (rs: seq<Interval>)
    requires IsCalendar(starts) && Valid(p) && p.frequency.Monthly? && from < to
    ensures Covers(rs, ScheduleOf(p, starts, from, to), to / DAY + 1)
  {
    var w := ScheduleOf(p, starts, from, to);
    var k, endMonth := MonthOf(starts, from / DAY), MonthOf(starts, to / DAY);
    ghost var first := k;
    rs := [];
    StartsBefore(starts(k), from);
    CoversNothing(w, starts(k));
    MonthsInOrder(starts, from / DAY, to / DAY);
    while k <= endMonth
      invariant first <= k <= endMonth + 1 && Covers(rs, w, starts(k))
    {
      MonthIsNear(starts, from / DAY, to / DAY, first, endMonth, k);
      rs := AppendMonth(rs, p, starts, from, to, k);
      k := k + 1;
    }
    CoversBack(rs, w, to / DAY + 1, starts(k));
  }

  // ---------- by year ----------

  // Passing over months other than the pattern's.
  lemma {:induction false} SkipMonths(rs: seq<Interval>, p: Pattern, starts: int -> int, from: Instant, to: Instant,
      j: int, k: int)
    requires IsCalendar(starts) && Valid(p) && p.frequency.Yearly? && j <= k && forall x :: j <= x < k ==>
        x % 12 != MonthIndex(p)
    requires Covers(rs, ScheduleOf(p, starts, from, to), starts(j))
    ensures Covers(rs, ScheduleOf(p, starts, from, to), starts(k))
    decreases k - j
  {
    if j < k {
      assert starts(j) + 28 <= starts(j + 1);
      NoneApplies(p, starts, j, starts(j), starts(j + 1));
      CoversSkip(rs, ScheduleOf(p, starts, from, to), starts(j), starts(j + 1));
      SkipMonths(rs, p, starts, from, to, j + 1, k);
    }
  }

  // Of the twelve months of a year one has the given place.
  lemma OtherMonths(y: int, m: int)
    requires 0 <= m < 12
    ensures (12 * y + m) % 12 == m
    ensures forall x :: 12 * y <= x < 12 * y + m ==> x % 12 != m
    ensures forall x :: 12 * y + m + 1 <= x < 12 * (y + 1) ==> x % 12 != m
  {
    forall x | 12 * y <= x < 12 * (y + 1)
      ensures x % 12 == x - 12 * y
    {
    }
  }

  lemma YearIsBetween(first: int, last: int, y: int, k: int)
    requires first / 12 <= y <= last / 12 && 12 * y <= k < 12 * y + 12
    ensures first - 11 <= k <= last + 11
  {
  }

  lemma MonthOfYearIsNear(starts: int -> int, a: int, b: int, first: int, last: int, y: int, k: int)
    requires IsCalendar(starts) && InMonth(starts, a, first) && InMonth(starts, b, last)
    requires first / 12 <= y <= last / 12 && 12 * y <= k < 12 * y + 12
    ensures a - 400 <= starts(k) && starts(k + 1) <= b + 400
  {
    YearIsBetween(first, last, y, k);
    MonthIsNear(starts, a, b, first, last, k);
  }

  lemma UpToMonth(rs: seq<Interval>, p: Pattern, starts: int -> int, from: Instant, to: Instant, y: int, k: int)
    requires IsCalendar(starts) && Valid(p) && p.frequency.Yearly? && k == 12 * y + MonthIndex(p)
    requires Covers(rs, ScheduleOf(p, starts, from, to), starts(12 * y))
    ensures k % 12 == MonthIndex(p) && Covers(rs, ScheduleOf(p, starts, from, to), starts(k))
  {
    OtherMonths(y, MonthIndex(p));
    SkipMonths(rs, p, starts, from, to, 12 * y, k);
  }

  lemma AfterMonth(rs: seq<Interval>, p: Pattern, starts: int -> int, from: Instant, to: Instant, y: int, k: int)
    requires IsCalendar(starts) && Valid(p) && p.frequency.Yearly? && k == 12 * y + MonthIndex(p)
    requires Covers(rs, ScheduleOf(p, starts, from, to), starts(k + 1))
    ensures Covers(rs, ScheduleOf(p, starts, from, to), starts(12 * (y + 1)))
  {
    OtherMonths(y, MonthIndex(p));
    SkipMonths(rs, p, starts, from, to, k + 1, 12 * (y + 1));
  }

  /** One year, counted from 1970: its only occurrence is in the pattern's month. */
  method AppendYear(
      rs: seq<Interval>, p: Pattern, starts: int -> int, from: Instant, to: Instant, y: int,
      ghost first: int, ghost last: int)
      returns (qs: seq<Interval>)
    requires IsCalendar(starts) && Valid(p) && p.frequency.Yearly?
    requires Covers(rs, ScheduleOf(p, starts, from, to), starts(12 * y))
    requires InMonth(starts, from / DAY, first) && InMonth(starts, to / DAY, last) && first / 12 <= y <= last / 12
    ensures Covers(qs, ScheduleOf(p, starts, from, to), starts(12 * (y + 1)))
  {
    var k := 12 * y + MonthIndex(p);
    UpToMonth(rs, p, starts, from, to, y, k);
    MonthOfYearIsNear(starts, from / DAY, to / DAY, first, last, y, k);
    qs := AppendMonth(rs, p, starts, from, to, k);
    AfterMonth(qs, p, starts, from, to, y, k);
  }

  // Nothing is due before the year of the window's first month.
  lemma FirstYear(w: Schedule, starts: int -> int, first: int)
    requires IsCalendar(starts) && InMonth(starts, w.from / DAY, first)
    ensures Covers([], w, starts(12 * (first / 12)))
  {
    var k := 12 * (first / 12);
    MonthsAscend(starts, k, first);
    StartsBefore(starts(k), w.from);
    CoversNothing(w, starts(k));
  }

  // And nothing after the year of its last month.
  lemma LastYear(rs: seq<Interval>, w: Schedule, starts: int -> int, last: int, y: int)
    requires IsCalendar(starts) && InMonth(starts, w.to / DAY, last) && 12 * y > last && Covers(rs, w, starts(12 * y))
    ensures Covers(rs, w, w.to / DAY + 1)
  {
    MonthsAscend(starts, last + 1, 12 * y);
    CoversBack(rs, w, w.to / DAY + 1, starts(12 * y));
  }

  method ExpandYearly(p: Pattern, starts: int -> int, from: Instant, to: Instant) returns (rs: seq<Interval>)
    requires IsCalendar(starts) && Valid(p) && p.frequency.Yearly? && from < to
    ensures Covers(rs, ScheduleOf(p, starts, from, to), to / DAY + 1)
  {
    var w := ScheduleOf(p, starts, from, to);
    var first, last := MonthOf(starts, from / DAY), MonthOf(starts, to / DAY);
    var y, endYear := first / 12, last / 12;
    rs := [];
    MonthsInOrder(starts, from / DAY, to / DAY);
    FirstYear(w, starts, first);
    while y <= endYear
      invariant first / 12 <= y <= endYear + 1 && Covers(rs, w, starts(12 * y))
    {
      rs := AppendYear(rs, p, starts, from, to, y, first, last);
      y := y + 1;
    }
    LastYear(rs, w, starts, last, y);
  }

  // ---------- the whole ----------

  /** Computed so that no 64-bit sum overflows. */
  predicate SpanExceedsMax(from: Instant, to: Instant) {
    from <= MAX_INT64 - MAX_SPAN && to > from + MAX_SPAN
  }

  lemma SpanIsExact(from: Instant, to: Instant)
    requires from < to <= MAX_INT64
    ensures SpanExceedsMax(from, to) <==> to - from > MAX_SPAN
  {
  }

  /** The pattern applies at an instant of the window. */
  ghost predicate AppliesAt(p: Pattern, starts: int -> int, from: Instant, to: Instant, t: Instant)
    requires IsCalendar(starts)
  {
    from <= t < to && Applies(p, starts)(t / DAY) && p.dayStart <= t % DAY * MILLISECOND < p.dayEnd
  }

  /**
   Expands a pattern over [from, to): non-empty ascending disjoint intervals inside the window, which hold
   exactly the instants at which the pattern applies.
  */
  method Expand(p: Pattern, starts: int -> int, from: Instant, to: Instant) returns (r: Expansion)
    requires IsCalendar(starts) && to <= MAX_INT64
    ensures r.InvalidTimeRange? <==> from >= to
    ensures r.SpanTooLarge? <==> from < to && to - from > MAX_SPAN
    ensures r.InvalidPattern? <==> from < to && to - from <= MAX_SPAN && !Valid(p)
    ensures r.Expanded? ==>
      && (forall i :: 0 <= i < |r.intervals| ==> from <= r.intervals[i].start < r.intervals[i].end <= to)
      && (forall i, j :: 0 <= i < j < |r.intervals| ==> r.intervals[i].end <= r.intervals[j].start)
      && (forall t :: Inside(r.intervals, t) <==> AppliesAt(p, starts, from, to, t))
      && OnePerDay(r.intervals)
  {
    if from >= to {
      return InvalidTimeRange;
    }
    SpanIsExact(from, to);
    if SpanExceedsMax(from, to) {
      return SpanTooLarge;
    }
    if !Valid(p) {
      return InvalidPattern;
    }
    var rs: seq<Interval>;
    if p.frequency.Monthly? {
      rs := ExpandMonthly(p, starts, from, to);
    } else if p.frequency.Yearly? {
      rs := ExpandYearly(p, starts, from, to);
    } else {
      rs := ExpandByDay(p, starts, from, to);
    }
    CoversMeansApplies(rs, p, starts, from, to);
    r := Expanded(rs);
  }

  lemma CoversMeansApplies(rs: seq<Interval>, p: Pattern, starts: int -> int, from: Instant, to: Instant)
    requires IsCalendar(starts) && Valid(p) && Covers(rs, ScheduleOf(p, starts, from, to), to / DAY + 1)
    ensures forall t :: Inside(rs, t) <==> AppliesAt(p, starts, from, to, t)
  {
    var w := ScheduleOf(p, starts, from, to);
    forall t
      ensures Inside(rs, t) <==> AppliesAt(p, starts, from, to, t)
    {
      assert t < to ==> t < (to / DAY + 1) * DAY;
      assert Due(w, t) <==> AppliesAt(p, starts, from, to, t);
    }
  }

  /** The expansion on the Gregorian calendar. */
  method ExpandUTC(p: Pattern, from: Instant, to: Instant) returns (r: Expansion)
    requires to <= MAX_INT64
    ensures IsCalendar(MonthStart)
    ensures r.Expanded? <==> from < to <= from + MAX_SPAN && Valid(p)
    ensures r.Expanded? ==> forall t :: Inside(r.intervals, t) <==> AppliesAt(p, MonthStart, from, to, t)
    ensures r.Expanded? ==> OnePerDay(r.intervals)
  {
    GregorianIsCalendar();
    r := Expand(p, MonthStart, from, to);
  }

  /**
   Read as a calendar: day d of month k, of length n, is the named day or, for 0, the last, in the named month if
   yearly.
  */
  lemma AppliesOnDate(p: Pattern, starts: int -> int, k: int, n: int, d: int)
    requires IsCalendar(starts) && Valid(p) && !ByDay(p) && starts(k + 1) == starts(k) + n && 1 <= d <= n
    ensures Applies(p, starts)(starts(k) + d - 1) <==>
            d == (if p.dayOfMonth == 0 then n else p.dayOfMonth) && (p.frequency.Yearly? ==> k % 12 == MonthIndex(p))
  {
    AppliesInMonth(p, starts, k, starts(k) + d - 1);
  }
}
