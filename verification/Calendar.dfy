/**
 Months as consecutive stretches of days, and the proleptic Gregorian calendar as one such sequence. Day 0
 is 1 January 1970, a Thursday; month 0 is January 1970.
*/
module Calendar {

  // ---------- sequences of months ----------

  /** The first day of every month; months have 28 to 31 days and month 0 starts on day 0. */
  ghost predicate IsCalendar(starts: int -> int) {
    starts(0) == 0 && forall j, k :: k == j + 1 ==> starts(j) + 28 <= starts(k) <= starts(j) + 31
  }

  predicate InMonth(starts: int -> int, day: int, k: int) { starts(k) <= day < starts(k + 1) }

  lemma {:induction false} MonthsAscend(starts: int -> int, j: int, k: int)
    requires IsCalendar(starts) && j <= k
    ensures starts(j) + 28 * (k - j) <= starts(k) <= starts(j) + 31 * (k - j)
    decreases k - j
  {
    if j < k {
      assert starts(j) + 28 <= starts(j + 1) <= starts(j) + 31;
      MonthsAscend(starts, j + 1, k);
    }
  }

  lemma OneMonth(starts: int -> int, day: int, j: int, k: int)
    requires IsCalendar(starts) && InMonth(starts, day, j) && InMonth(starts, day, k)
    ensures j == k
  {
    if j < k {
      MonthsAscend(starts, j + 1, k);
    } else if k < j {
      MonthsAscend(starts, k + 1, j);
    }
  }

  /** The month of a day, searched from month k on. */
  function MonthFrom(starts: int -> int, day: int, k: int): (r: int)
    requires IsCalendar(starts) && starts(k) <= day
    ensures InMonth(starts, day, r)
    decreases day - starts(k)
  {
    assert starts(k) + 28 <= starts(k + 1);
    if day < starts(k + 1) then k else MonthFrom(starts, day, k + 1)
  }

  /** The month of a day. */
  function MonthOf(starts: int -> int, day: int): (r: int)
    requires IsCalendar(starts)
    ensures InMonth(starts, day, r)
  {
    if day >= 0 then MonthFrom(starts, day, 0) else (MonthsAscend(starts, day, 0); MonthFrom(starts, day, day))
  }

  lemma MonthsInOrder(starts: int -> int, a: int, b: int)
    requires IsCalendar(starts) && a <= b
    ensures MonthOf(starts, a) <= MonthOf(starts, b)
  {
    var j, k := MonthOf(starts, a), MonthOf(starts, b);
    if k < j {
      MonthsAscend(starts, k + 1, j);
    }
  }

  // ---------- the Gregorian calendar ----------

  predicate IsLeap(y: int) { y % 4 == 0 && (y % 100 != 0 || y % 400 == 0) }

  /** Leap years before year y, counted from year 1. */
  function LeapsBefore(y: int): int { (y - 1) / 4 - (y - 1) / 100 + (y - 1) / 400 }

  /** The day number of 1 January. */
  function YearStart(y: int): int { 365 * (y - 1970) + LeapsBefore(y) - 477 }

  lemma QuarterStep(y: int)
    ensures y / 4 == (y - 1) / 4 + if y % 4 == 0 then 1 else 0
  {
  }

  lemma CenturyStep(y: int)
    ensures y / 100 == (y - 1) / 100 + if y % 100 == 0 then 1 else 0
  {
  }

  lemma CycleStep(y: int)
    ensures y / 400 == (y - 1) / 400 + if y % 400 == 0 then 1 else 0
  {
  }

  lemma Multiples(y: int)
    ensures y % 400 == 0 ==> y % 100 == 0
    ensures y % 100 == 0 ==> y % 4 == 0
  {
  }

  lemma YearLength(y: int)
    ensures YearStart(y + 1) == YearStart(y) + if IsLeap(y) then 366 else 365
  {
    QuarterStep(y);
    CenturyStep(y);
    CycleStep(y);
    Multiples(y);
  }

  function DaysBeforeMonth(m: int, leap: bool): int
    requires 0 <= m <= 12
  {
    [0, 31, 59, 90, 120, 151, 181, 212, 243, 273, 304, 334, 365][m] + if leap && m >= 2 then 1 else 0
  }

  /** The familiar month lengths. */
  function DaysInMonth(m: int, leap: bool): int
    requires 0 <= m < 12
  {
    if m == 1 then (if leap then 29 else 28) else if m == 3 || m == 5 || m == 8 || m == 10 then 30 else 31
  }

  /** The first day of a month. */
  function MonthStart(k: int): int {
    var y := 1970 + k / 12;
    YearStart(y) + DaysBeforeMonth(k % 12, IsLeap(y))
  }

  /** Months follow one another without gap, each of its familiar length. */
  lemma MonthsAdjoin(k: int)
    ensures MonthStart(k + 1) == MonthStart(k) + DaysInMonth(k % 12, IsLeap(1970 + k / 12))
  {
    var y, m := 1970 + k / 12, k % 12;
    if m < 11 {
      assert (k + 1) / 12 == k / 12 && (k + 1) % 12 == m + 1;
    } else {
      assert (k + 1) / 12 == k / 12 + 1 && (k + 1) % 12 == 0;
      YearLength(y);
    }
  }

  lemma FirstMonth()
    ensures MonthStart(0) == 0
  {
  }

  /** The Gregorian months are such a sequence. */
  lemma GregorianIsCalendar()
    ensures IsCalendar(MonthStart)
  {
    FirstMonth();
    forall j, k | k == j + 1
      ensures MonthStart(j) + 28 <= MonthStart(k) <= MonthStart(j) + 31
    {
      MonthsAdjoin(j);
    }
  }

  /** Days since Monday. */
  function Weekday(day: int): int { (day + 3) % 7 }
}
