/**
 The expansion of recurrence patterns read by date and weekday. Dates are defined by succession from 1 January
 1970, a Thursday, and not by the formulas of the calendar.
*/
module RecurrenceDates {
  import opened Calendar
  import opened Recurrence

  // ---------- dates ----------

  /** Months and days count from 1. */
  datatype Date = Date(year: int, month: int, day: int)

  predicate LeapYear(y: int) { y % 400 == 0 || (y % 4 == 0 && y % 100 != 0) }

  /** The last day of a month. */
  function LastDay(y: int, m: int): int {
    match m
    case 1 => 31 case 2 => if LeapYear(y) then 29 else 28 case 3 => 31 case 4 => 30 case 5 => 31 case 6 => 30
    case 7 => 31 case 8 => 31 case 9 => 30 case 10 => 31 case 11 => 30 case _ => 31
  }

  predicate IsDate(t: Date) { 1 <= t.month <= 12 && 1 <= t.day <= LastDay(t.year, t.month) }

  function Tomorrow(t: Date): Date {
    if t.day < LastDay(t.year, t.month) then t.(day := t.day + 1)
    else if t.month < 12 then Date(t.year, t.month + 1, 1)
    else Date(t.year + 1, 1, 1)
  }

  /** The month of a date, January 1970 being month 0. */
  function MonthNumber(t: Date): int { 12 * (t.year - 1970) + t.month - 1 }

  /** The day a date names. */
  function DayNumber(t: Date): int { MonthStart(MonthNumber(t)) + t.day - 1 }

  lemma MonthNumberParts(y: int, m: int)
    requires 1 <= m <= 12
    ensures (12 * (y - 1970) + m - 1) / 12 == y - 1970 && (12 * (y - 1970) + m - 1) % 12 == m - 1
  {
  }

  /** Months begin where the one before ends, after its last day. */
  lemma MonthEnds(t: Date)
    requires IsDate(t)
    ensures MonthStart(MonthNumber(t) + 1) == MonthStart(MonthNumber(t)) + LastDay(t.year, t.month)
  {
    MonthsAdjoin(MonthNumber(t));
    MonthNumberParts(t.year, t.month);
    assert LeapYear(t.year) == IsLeap(t.year) by {
      Multiples(t.year);
    }
  }

  // The next date, whatever the days on which months start.
  lemma DayAfter(starts: int -> int, t: Date)
    requires IsDate(t) && starts(MonthNumber(t) + 1) == starts(MonthNumber(t)) + LastDay(t.year, t.month)
    ensures IsDate(Tomorrow(t))
    ensures starts(MonthNumber(Tomorrow(t))) + Tomorrow(t).day == starts(MonthNumber(t)) + t.day + 1
  {
    assert t.day == LastDay(t.year, t.month) ==> MonthNumber(Tomorrow(t)) == MonthNumber(t) + 1;
  }

  /** The next date names the next day. */
  lemma DatesSucceed(t: Date)
    requires IsDate(t)
    ensures IsDate(Tomorrow(t)) && DayNumber(Tomorrow(t)) == DayNumber(t) + 1
  {
    MonthEnds(t);
    DayAfter(MonthStart, t);
  }

  /** Day 0 is 1 January 1970. */
  lemma FirstDate()
    ensures DayNumber(Date(1970, 1, 1)) == 0
  {
    FirstMonth();
  }

  lemma InItsMonth(t: Date)
    requires IsDate(t)
    ensures InMonth(MonthStart, DayNumber(t), MonthNumber(t))
  {
    MonthEnds(t);
  }

  /** Every day has exactly one date. */
  lemma DateOf(day: int) returns (t: Date)
    ensures IsDate(t) && DayNumber(t) == day
    ensures forall u :: IsDate(u) && DayNumber(u) == day ==> u == t
  {
    GregorianIsCalendar();
    var k := MonthOf(MonthStart, day);
    t := Date(1970 + k / 12, k % 12 + 1, day - MonthStart(k) + 1);
    assert MonthNumber(t) == k;
    MonthEnds(t.(day := 1));
    forall u | IsDate(u) && DayNumber(u) == day
      ensures u == t
    {
      InItsMonth(u);
      OneMonth(MonthStart, day, MonthNumber(u), k);
      MonthNumberParts(u.year, u.month);
    }
  }

  // ---------- weekdays ----------

  /** Day 0 is a Thursday, and weekdays follow one another. */
  lemma WeekdaysSucceed(day: int)
    ensures Weekday(0) == 3
    ensures Weekday(day + 1) == if Weekday(day) == 6 then 0 else Weekday(day) + 1
  {
  }

  /** Bit 0 of a mask is Monday and bit 6 Sunday. */
  lemma MaskBits(day: int, days: bv8)
    ensures Weekday(day) == 0 ==> (DayMatches(day, days) <==> days & 1 != 0)
    ensures Weekday(day) == 1 ==> (DayMatches(day, days) <==> days & 2 != 0)
    ensures Weekday(day) == 2 ==> (DayMatches(day, days) <==> days & 4 != 0)
    ensures Weekday(day) == 3 ==> (DayMatches(day, days) <==> days & 8 != 0)
    ensures Weekday(day) == 4 ==> (DayMatches(day, days) <==> days & 16 != 0)
    ensures Weekday(day) == 5 ==> (DayMatches(day, days) <==> days & 32 != 0)
    ensures Weekday(day) == 6 ==> (DayMatches(day, days) <==> days & 64 != 0)
  {
  }

  // ---------- patterns ----------

  /** What makes a pattern valid: times of day in whole milliseconds and the fields that its frequency uses. */
  lemma ValidMeans(p: Pattern)
    ensures Valid(p) <==>
            && (p.frequency.Daily? || p.frequency.Weekly? || p.frequency.Monthly? || p.frequency.Yearly?)
            && p.dayStart >= 0 && p.dayEnd > p.dayStart && p.dayEnd <= 86_400_000_000_000
            && p.dayStart % 1_000_000 == 0 && p.dayEnd % 1_000_000 == 0
            && (p.frequency.Daily? || p.frequency.Weekly? ==> p.days != 0 && p.days < 128)
            && (p.frequency.Monthly? || p.frequency.Yearly? ==> p.dayOfMonth >= 0 && p.dayOfMonth <= 28)
            && (p.frequency.Yearly? ==> p.month >= 0 && p.month <= 12)
  {
    MaskIsSmall(p.days);
  }

  lemma MaskIsSmall(days: bv8)
    ensures days & 0x80 == 0 <==> days < 128
  {
  }

  /** The monthly or yearly pattern names the date. */
  predicate Names(p: Pattern, t: Date) {
    && t.day == (if p.dayOfMonth == 0 then LastDay(t.year, t.month) else p.dayOfMonth)
    && (p.frequency.Yearly? ==> t.month == if p.month == 0 then 1 else p.month)
  }

  /** The pattern applies on a date, which is the given day. */
  predicate OnDate(p: Pattern, t: Date, day: int) {
    match p.frequency
    case Daily => DayMatches(day, p.days)
    case Weekly => DayMatches(day, p.days)
    case Monthly => Names(p, t)
    case Yearly => Names(p, t)
    case Unknown => false
  }

  lemma NamedInCalendar(p: Pattern, starts: int -> int, t: Date)
    requires IsCalendar(starts) && Valid(p) && !ByDay(p) && IsDate(t)
    requires starts(MonthNumber(t) + 1) == starts(MonthNumber(t)) + LastDay(t.year, t.month)
    ensures Applies(p, starts)(starts(MonthNumber(t)) + t.day - 1) <==> Names(p, t)
  {
    MonthNumberParts(t.year, t.month);
    AppliesOnDate(p, starts, MonthNumber(t), LastDay(t.year, t.month), t.day);
  }

  lemma AppliesByWeekday(p: Pattern, starts: int -> int, day: int)
    requires IsCalendar(starts) && ByDay(p)
    ensures Applies(p, starts)(day) <==> DayMatches(day, p.days)
  {
  }

  // Whatever the days on which months start.
  lemma AppliesInCalendar(p: Pattern, starts: int -> int, t: Date, day: int)
    requires IsCalendar(starts) && Valid(p) && IsDate(t) && day == starts(MonthNumber(t)) + t.day - 1
    requires starts(MonthNumber(t) + 1) == starts(MonthNumber(t)) + LastDay(t.year, t.month)
    ensures Applies(p, starts)(day) <==> OnDate(p, t, day)
  {
    if ByDay(p) {
      AppliesByWeekday(p, starts, day);
    } else {
      NamedInCalendar(p, starts, t);
    }
  }

  /** On the Gregorian calendar patterns apply by date. */
  lemma AppliesByDate(p: Pattern, t: Date)
    requires Valid(p) && IsDate(t)
    ensures IsCalendar(MonthStart)
    ensures Applies(p, MonthStart)(DayNumber(t)) <==> OnDate(p, t, DayNumber(t))
  {
    GregorianIsCalendar();
    MonthEnds(t);
    AppliesInCalendar(p, MonthStart, t, DayNumber(t));
  }

  /** The millisecond ms of a day lies in one of the intervals. */
  ghost predicate Covered(rs: seq<Interval>, day: int, ms: int) {
    exists i :: 0 <= i < |rs| && rs[i].start <= day * 86_400_000 + ms < rs[i].end
  }

  lemma CoveredIsInside(rs: seq<Interval>, day: int, ms: int)
    ensures Covered(rs, day, ms) <==> Inside(rs, day * 86_400_000 + ms)
  {
  }

  lemma AtMillisecond(p: Pattern, starts: int -> int, from: Instant, to: Instant, day: int, ms: int)
    requires IsCalendar(starts) && 0 <= ms < 86_400_000
    ensures AppliesAt(p, starts, from, to, day * 86_400_000 + ms) <==>
            && from <= day * 86_400_000 + ms < to && Applies(p, starts)(day)
            && p.dayStart <= ms * 1_000_000 < p.dayEnd
  {
    DayOf(day * 86_400_000 + ms, day);
  }

  /**
   The expansion by date: a millisecond of a date is covered if and only if it lies in the window, the pattern
   applies on that date, and the time of day lies between start and end. There is one interval for each day.
  */
  method ExpandByDate(p: Pattern, from: Instant, to: Instant) returns (r: Expansion)
    requires to <= 0x7FFF_FFFF_FFFF_FFFF
    ensures r.InvalidTimeRange? <==> from >= to
    ensures r.SpanTooLarge? <==> to - from > 31_536_000_000_000
    ensures r.InvalidPattern? <==> 0 < to - from <= 31_536_000_000_000 && !Valid(p)
    ensures r.Expanded? ==> forall t, ms :: IsDate(t) && 0 <= ms < 86_400_000 ==>
      (Covered(r.intervals, DayNumber(t), ms) <==>
        && from <= DayNumber(t) * 86_400_000 + ms < to && OnDate(p, t, DayNumber(t))
        && p.dayStart <= ms * 1_000_000 < p.dayEnd)
    ensures r.Expanded? ==> OnePerDay(r.intervals)
  {
    GregorianIsCalendar();
    r := Expand(p, MonthStart, from, to);
    if r.Expanded? {
      forall t, ms | IsDate(t) && 0 <= ms < 86_400_000
        ensures Covered(r.intervals, DayNumber(t), ms) <==>
                && from <= DayNumber(t) * 86_400_000 + ms < to && OnDate(p, t, DayNumber(t))
                && p.dayStart <= ms * 1_000_000 < p.dayEnd
      {
        AppliesByDate(p, t);
        AtMillisecond(p, MonthStart, from, to, DayNumber(t), ms);
        CoveredIsInside(r.intervals, DayNumber(t), ms);
      }
    }
  }

}
