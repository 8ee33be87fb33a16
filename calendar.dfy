/**
 * The calendar arithmetic that gamma.py gets from Python's `datetime.date`
 * and from `numpy.busday_count`: proleptic Gregorian dates, day ordinals
 * (1 = 0001-01-01, as `date.toordinal`), weekdays (Monday = 0, as
 * `date.weekday`), business-day counts over Monday..Friday, the third-Friday
 * rule of gamma.py and the earliest of a column of dates.
 */
module Calendar {
  import opened Common

  datatype Ymd = Ymd(year: int, month: int, day: int)

  predicate IsLeapYear(y: int) {
    y % 4 == 0 && (y % 100 != 0 || y % 400 == 0)
  }

  function DaysInMonth(y: int, m: int): (n: int)
    requires 1 <= m <= 12
    ensures 28 <= n <= 31
  {
    if m == 2 then (if IsLeapYear(y) then 29 else 28)
    else if m == 4 || m == 6 || m == 9 || m == 11 then 30
    else 31
  }

  /** The range Python's `date` accepts: years 1..9999, real days of the month. */
  predicate IsValid(d: Ymd) {
    1 <= d.year <= 9999 && 1 <= d.month <= 12 && 1 <= d.day <= DaysInMonth(d.year, d.month)
  }

  type Date = d: Ymd | IsValid(d) witness Ymd(1970, 1, 1)

  function DaysInYear(y: int): int {
    if IsLeapYear(y) then 366 else 365
  }

  function DaysBeforeYear(y: int): int
    requires y >= 1
  {
    var p := y - 1;
    p * 365 + p / 4 - p / 100 + p / 400
  }

  function DaysBeforeMonth(y: int, m: int): (n: int)
    requires 1 <= m <= 12
    ensures 28 * (m - 1) <= n <= 31 * (m - 1)
    decreases m
  {
    if m == 1 then 0 else DaysBeforeMonth(y, m - 1) + DaysInMonth(y, m - 1)
  }

  /** Day number of a date, 0001-01-01 being day 1. */
  function Ordinal(d: Date): int {
    DaysBeforeYear(d.year) + DaysBeforeMonth(d.year, d.month) + d.day
  }

  /** Weekday of a day number, Monday = 0 .. Sunday = 6 (0001-01-01 was a Monday). */
  function WeekdayOf(n: int): (w: int)
    ensures 0 <= w < 7
  {
    (n + 6) % 7
  }

  function Weekday(d: Date): int {
    WeekdayOf(Ordinal(d))
  }

  /** numpy's default week mask: Monday to Friday are valid days, no holidays. */
  predicate IsBusinessDay(n: int) {
    WeekdayOf(n) < 5
  }

  /** Number of business days among the day numbers lo, lo + 1, .., hi - 1. */
  function CountBusinessDays(lo: int, hi: int): (c: nat)
    requires lo <= hi
    ensures c <= hi - lo
    decreases hi - lo
  {
    if lo == hi then 0
    else CountBusinessDays(lo, hi - 1) + (if IsBusinessDay(hi - 1) then 1 else 0)
  }

  /**
   * `numpy.busday_count(begin, end)` on day numbers: the business days of
   * [begin, end) when begin <= end; otherwise minus the business days of
   * (end, begin], the rule numpy follows since release 1.25.
   */
  function BusdayCount(begin: int, end: int): (r: int)
    ensures begin <= end ==> 0 <= r <= end - begin
    ensures begin > end ==> end - begin <= r <= 0
  {
    if begin <= end then CountBusinessDays(begin, end)
    else -(CountBusinessDays(end + 1, begin + 1) as int)
  }

  /** Python's ordering of dates: by year, then month, then day. */
  predicate Before(a: Ymd, b: Ymd) {
    a.year < b.year || (a.year == b.year && (a.month < b.month || (a.month == b.month && a.day < b.day)))
  }

  /** `isThirdFriday` of gamma.py: a Friday whose day of the month is 15..21. */
  predicate IsThirdFriday(d: Date): (b: bool)
    ensures b <==> Weekday(d) == 4 && (d.day - 1) / 7 == 2
  {
    Weekday(d) == 4 && 15 <= d.day <= 21
  }

  /** The monthly expiry of a month: its one and only third Friday. */
  function ThirdFridayOf(y: int, m: int): (d: Date)
    requires 1 <= y <= 9999 && 1 <= m <= 12
    ensures d.year == y && d.month == m && IsThirdFriday(d)
    ensures forall e: Date {:trigger IsThirdFriday(e)} :: e.year == y && e.month == m && IsThirdFriday(e) ==> e == d
  {
    var base := DaysBeforeYear(y) + DaysBeforeMonth(y, m);
    var w15 := WeekdayOf(base + 15);
    var k := (4 - w15) % 7;
    var d: Date := Ymd(y, m, 15 + k);
    assert Ordinal(d) == base + 15 + k;
    SameWeekdayShift(base + 15, k);
    forall e: Date | e.year == y && e.month == m && IsThirdFriday(e)
      ensures e == d
    {
      assert Ordinal(e) == base + e.day;
      SameWeekdayClose(Ordinal(e), Ordinal(d));
    }
    d
  }

  lemma SameWeekdayShift(n: int, k: int)
    requires k == (4 - WeekdayOf(n)) % 7
    ensures WeekdayOf(n + k) == 4
  {
    var w := WeekdayOf(n);
    assert n + 6 == 7 * ((n + 6) / 7) + w;
    assert 4 - w == 7 * ((4 - w) / 7) + k;
    assert n + k + 6 == 7 * ((n + 6) / 7 - (4 - w) / 7) + 4;
  }

  /** Two day numbers fall on the same weekday exactly when they are a whole number of weeks apart. */
  lemma SameWeekdayIff(a: int, b: int)
    ensures WeekdayOf(a) == WeekdayOf(b) <==> (a - b) % 7 == 0
  {
    var q := (a + 6) / 7 - (b + 6) / 7;
    assert a + 6 == 7 * ((a + 6) / 7) + WeekdayOf(a);
    assert b + 6 == 7 * ((b + 6) / 7) + WeekdayOf(b);
    assert a - b == 7 * q + (WeekdayOf(a) - WeekdayOf(b));
    if (a - b) % 7 == 0 {
      assert a - b == 7 * ((a - b) / 7);
      assert WeekdayOf(a) - WeekdayOf(b) == 7 * ((a - b) / 7 - q);
    }
  }

  /** Day k of month m of year y exists and is a Friday. */
  predicate FridayOfMonth(y: int, m: int, k: int) {
    && 1 <= y <= 9999 && 1 <= m <= 12 && 1 <= k <= DaysInMonth(y, m)
    && WeekdayOf(DaysBeforeYear(y) + DaysBeforeMonth(y, m) + k) == 4
  }

  /**
   * `isThirdFriday` accepts exactly the third Friday of a month: a Friday
   * with a Friday of the same month one and two weeks before it, and no other
   * Friday of the month before it.
   */
  lemma ThirdFridayIsThird(d: Date)
    ensures IsThirdFriday(d) <==>
      && Weekday(d) == 4
      && FridayOfMonth(d.year, d.month, d.day - 7)
      && FridayOfMonth(d.year, d.month, d.day - 14)
      && forall k :: 1 <= k < d.day && FridayOfMonth(d.year, d.month, k) ==> k == d.day - 7 || k == d.day - 14
  {
    if Weekday(d) == 4 {
      forall k | 1 <= k <= DaysInMonth(d.year, d.month)
        ensures FridayOfMonth(d.year, d.month, k) <==> (d.day - k) % 7 == 0
      {
        FridaysApart(d, k);
      }
      forall k | 1 <= k < d.day && FridayOfMonth(d.year, d.month, k) && d.day <= 21
        ensures k == d.day - 7 || k == d.day - 14
      {
        WeeksBelowThree(d.day - k);
      }
      if d.day >= 22 {
        assert FridayOfMonth(d.year, d.month, d.day - 21);
      }
    }
  }

  /** In the month of a Friday d, the Fridays are the days a whole number of weeks from d. */
  lemma FridaysApart(d: Date, k: int)
    requires Weekday(d) == 4 && 1 <= k <= DaysInMonth(d.year, d.month)
    ensures FridayOfMonth(d.year, d.month, k) <==> (d.day - k) % 7 == 0
  {
    var base := DaysBeforeYear(d.year) + DaysBeforeMonth(d.year, d.month);
    SameWeekdayIff(base + d.day, base + k);
  }

  lemma WeeksBelowThree(x: int)
    requires 0 < x < 21 && x % 7 == 0
    ensures x == 7 || x == 14
  {
  }

  lemma SameWeekdayClose(a: int, b: int)
    requires WeekdayOf(a) == WeekdayOf(b) && -7 < a - b < 7
    ensures a == b
  {
    assert a + 6 == 7 * ((a + 6) / 7) + WeekdayOf(a);
    assert b + 6 == 7 * ((b + 6) / 7) + WeekdayOf(b);
  }

  /**
   * The minimum of a column of dates (pandas `Series.min`); None stands for
   * the NaT that pandas returns for an empty column.
   */
  function Earliest(s: seq<Date>): (r: Option<Date>)
    ensures r.None? <==> s == []
    ensures r.Some? ==> r.value in s && forall x :: x in s ==> !Before(x, r.value)
  {
    if s == [] then None
    else
      match Earliest(s[1..])
      case None => Some(s[0])
      case Some(m) =>
        if Before(s[0], m) then
          assert forall x :: x in s[1..] ==> !Before(x, s[0]) by {
            forall x | x in s[1..] ensures !Before(x, s[0]) {
              if Before(x, s[0]) { BeforeTransitive(x, s[0], m); }
            }
          }
          Some(s[0])
        else Some(m)
  }

  lemma BeforeTransitive(a: Ymd, b: Ymd, c: Ymd)
    requires Before(a, b) && Before(b, c)
    ensures Before(a, c)
  {
  }

  // ---- Ordinals agree with the order of dates ----

  lemma DaysBeforeYearStep(y: int)
    requires y >= 1
    ensures DaysBeforeYear(y + 1) == DaysBeforeYear(y) + DaysInYear(y)
  {
    QuotientStep4(y);
    QuotientStep100(y);
    QuotientStep400(y);
    MultipleOfCentury(y);
    var leap := if IsLeapYear(y) then 1 else 0;
    assert (if y % 4 == 0 then 1 else 0) - (if y % 100 == 0 then 1 else 0) + (if y % 400 == 0 then 1 else 0) == leap;
  }

  /** A multiple of 400 is one of 100, and a multiple of 100 is one of 4. */
  lemma MultipleOfCentury(y: int)
    ensures y % 400 == 0 ==> y % 100 == 0
    ensures y % 100 == 0 ==> y % 4 == 0
  {
    if y % 400 == 0 {
      RemainderOf100(y, 4 * (y / 400), 0);
    }
    if y % 100 == 0 {
      RemainderOf4(y, 25 * (y / 100), 0);
    }
  }

  lemma RemainderOf100(y: int, q: int, r: int)
    requires y == 100 * q + r && 0 <= r < 100
    ensures y % 100 == r
  {
  }

  lemma RemainderOf4(y: int, q: int, r: int)
    requires y == 4 * q + r && 0 <= r < 4
    ensures y % 4 == r
  {
  }

  // The quotient of y by a constant rises by one exactly where y is a multiple of it.

  lemma QuotientStep4(y: int)
    ensures y / 4 == (y - 1) / 4 + (if y % 4 == 0 then 1 else 0)
  {
    var q, r := (y - 1) / 4, (y - 1) % 4;
    assert y == 4 * q + r + 1;
  }

  lemma QuotientStep100(y: int)
    ensures y / 100 == (y - 1) / 100 + (if y % 100 == 0 then 1 else 0)
  {
    var q, r := (y - 1) / 100, (y - 1) % 100;
    assert y == 100 * q + r + 1;
  }

  lemma QuotientStep400(y: int)
    ensures y / 400 == (y - 1) / 400 + (if y % 400 == 0 then 1 else 0)
  {
    var q, r := (y - 1) / 400, (y - 1) % 400;
    assert y == 400 * q + r + 1;
  }

  lemma {:induction false} DaysBeforeYearGrows(y1: int, y2: int)
    requires 1 <= y1 < y2
    ensures DaysBeforeYear(y1) + DaysInYear(y1) <= DaysBeforeYear(y2)
    decreases y2 - y1
  {
    DaysBeforeYearStep(y1);
    if y1 + 1 < y2 {
      DaysBeforeYearGrows(y1 + 1, y2);
    }
  }

  lemma {:induction false} DaysBeforeMonthGrows(y: int, m1: int, m2: int)
    requires 1 <= m1 < m2 <= 12
    ensures DaysBeforeMonth(y, m1) + DaysInMonth(y, m1) <= DaysBeforeMonth(y, m2)
    decreases m2 - m1
  {
    if m1 + 1 < m2 {
      DaysBeforeMonthGrows(y, m1 + 1, m2);
    }
  }

  lemma DaysInYearIsTwelveMonths(y: int)
    ensures DaysBeforeMonth(y, 12) + DaysInMonth(y, 12) == DaysInYear(y)
  {
    assert DaysBeforeMonth(y, 3) == 31 + DaysInMonth(y, 2);
    assert DaysBeforeMonth(y, 6) == DaysBeforeMonth(y, 3) + 31 + 30 + 31;
    assert DaysBeforeMonth(y, 9) == DaysBeforeMonth(y, 6) + 30 + 31 + 31;
    assert DaysBeforeMonth(y, 12) == DaysBeforeMonth(y, 9) + 30 + 31 + 30;
  }

  /** Comparing dates as Python does agrees with comparing their day numbers. */
  lemma OrdinalOrder(a: Date, b: Date)
    ensures Before(a, b) <==> Ordinal(a) < Ordinal(b)
    ensures a == b <==> Ordinal(a) == Ordinal(b)
  {
    if Before(a, b) {
      OrdinalStrict(a, b);
    } else if a != b {
      assert Before(b, a);
      OrdinalStrict(b, a);
    }
  }

  lemma OrdinalStrict(a: Date, b: Date)
    requires Before(a, b)
    ensures Ordinal(a) < Ordinal(b)
  {
    if a.year < b.year {
      OrdinalYearBound(a);
      DaysBeforeYearGrows(a.year, b.year);
    } else if a.month < b.month {
      DaysBeforeMonthGrows(a.year, a.month, b.month);
    }
  }

  /** A date's day number does not reach the first day of the next year. */
  lemma OrdinalYearBound(a: Date)
    ensures Ordinal(a) <= DaysBeforeYear(a.year) + DaysInYear(a.year)
  {
    if a.month < 12 {
      DaysBeforeMonthGrows(a.year, a.month, 12);
    }
    DaysInYearIsTwelveMonths(a.year);
  }

  // ---- Business days ----

  lemma {:induction false} CountBusinessDaysSplit(lo: int, mid: int, hi: int)
    requires lo <= mid <= hi
    ensures CountBusinessDays(lo, hi) == CountBusinessDays(lo, mid) + CountBusinessDays(mid, hi)
    decreases hi - mid
  {
    if mid < hi {
      CountBusinessDaysSplit(lo, mid, hi - 1);
    }
  }

  /** Every run of seven consecutive days holds exactly five business days. */
  lemma BusinessDaysPerWeek(lo: int)
    ensures CountBusinessDays(lo, lo + 7) == 5
  {
    var w := WeekdayOf(lo);
    WeekOfWeekdays(w);
    WeekdayAfter(lo, 1); WeekdayAfter(lo, 2); WeekdayAfter(lo, 3);
    WeekdayAfter(lo, 4); WeekdayAfter(lo, 5); WeekdayAfter(lo, 6);
    assert CountBusinessDays(lo, lo + 1) == (if w < 5 then 1 else 0);
    assert CountBusinessDays(lo, lo + 2) == CountBusinessDays(lo, lo + 1) + (if (w + 1) % 7 < 5 then 1 else 0);
    assert CountBusinessDays(lo, lo + 3) == CountBusinessDays(lo, lo + 2) + (if (w + 2) % 7 < 5 then 1 else 0);
    assert CountBusinessDays(lo, lo + 4) == CountBusinessDays(lo, lo + 3) + (if (w + 3) % 7 < 5 then 1 else 0);
    assert CountBusinessDays(lo, lo + 5) == CountBusinessDays(lo, lo + 4) + (if (w + 4) % 7 < 5 then 1 else 0);
    assert CountBusinessDays(lo, lo + 6) == CountBusinessDays(lo, lo + 5) + (if (w + 5) % 7 < 5 then 1 else 0);
    assert CountBusinessDays(lo, lo + 7) == CountBusinessDays(lo, lo + 6) + (if (w + 6) % 7 < 5 then 1 else 0);
  }

  /** Seven consecutive weekdays, starting anywhere, hold five of Monday..Friday. */
  lemma WeekOfWeekdays(w: int)
    requires 0 <= w < 7
    ensures (if w < 5 then 1 else 0) + (if (w + 1) % 7 < 5 then 1 else 0)
      + (if (w + 2) % 7 < 5 then 1 else 0) + (if (w + 3) % 7 < 5 then 1 else 0)
      + (if (w + 4) % 7 < 5 then 1 else 0) + (if (w + 5) % 7 < 5 then 1 else 0)
      + (if (w + 6) % 7 < 5 then 1 else 0) == 5
  {
  }

  lemma WeekdayAfter(n: int, i: nat)
    ensures WeekdayOf(n + i) == (WeekdayOf(n) + i) % 7
  {
    assert n + 6 == 7 * ((n + 6) / 7) + WeekdayOf(n);
    assert n + i + 6 == 7 * ((n + 6) / 7) + (WeekdayOf(n) + i);
  }

  lemma {:induction false} BusinessDaysPerWeeks(lo: int, weeks: nat)
    ensures CountBusinessDays(lo, lo + 7 * weeks) == 5 * weeks
  {
    if weeks > 0 {
      BusinessDaysPerWeeks(lo, weeks - 1);
      CountBusinessDaysSplit(lo, lo + 7 * (weeks - 1), lo + 7 * weeks);
      BusinessDaysPerWeek(lo + 7 * (weeks - 1));
    }
  }

  /** Monday 2025-10-27 to Friday 2025-10-31 counts Monday..Thursday: 4. */
  lemma MondayToFriday()
    ensures Weekday(Ymd(2025, 10, 27)) == 0 && Weekday(Ymd(2025, 10, 31)) == 4
    ensures BusdayCount(Ordinal(Ymd(2025, 10, 27)), Ordinal(Ymd(2025, 10, 31))) == 4
  {
    var o := Ordinal(Ymd(2025, 10, 27));
    assert o == 739551;
    assert Ordinal(Ymd(2025, 10, 31)) == o + 4;
    assert CountBusinessDays(o, o + 4) == 4;
  }

  /** Friday 2025-10-31 to Monday 2025-11-03 counts the Friday only: 1. */
  lemma FridayToMonday()
    ensures Weekday(Ymd(2025, 11, 3)) == 0
    ensures BusdayCount(Ordinal(Ymd(2025, 10, 31)), Ordinal(Ymd(2025, 11, 3))) == 1
  {
    var o := Ordinal(Ymd(2025, 10, 31));
    assert o == 739555;
    assert Ordinal(Ymd(2025, 11, 3)) == o + 3;
    assert CountBusinessDays(o, o + 3) == 1;
  }

  /** 2025-10-17 is the third Friday of October 2025, 2025-10-31 is not. */
  lemma OctoberMonthly()
    ensures ThirdFridayOf(2025, 10) == Ymd(2025, 10, 17)
    ensures !IsThirdFriday(Ymd(2025, 10, 31))
  {
    assert Ordinal(Ymd(2025, 10, 17)) == 739541;
    assert IsThirdFriday(Ymd(2025, 10, 17));
  }
}
