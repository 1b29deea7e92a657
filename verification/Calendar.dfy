/** The proleptic Gregorian calendar, as `datetime` supplies it to the cron engine.

    A day is its ordinal (1 is Monday 1 January of year 1); a minute is counted from the
    midnight that starts day 1. */
module Calendar {

  const MINUTES_PER_DAY: nat := 1440

  datatype Date = Date(year: nat, month: nat, day: nat)

  predicate IsLeap(y: nat) {
    y % 4 == 0 && (y % 100 != 0 || y % 400 == 0)
  }

  function DaysInYear(y: nat): nat {
    if IsLeap(y) then 366 else 365
  }

  function DaysInMonth(y: nat, m: nat): nat {
    if m == 2 then (if IsLeap(y) then 29 else 28)
    else if m == 4 || m == 6 || m == 9 || m == 11 then 30
    else 31
  }

  /** Days in years 1 to y - 1. */
  function DaysBeforeYear(y: nat): nat
    requires 1 <= y
  {
    var p := y - 1;
    365 * p + p / 4 - p / 100 + p / 400
  }

  /** Days of year y before month m; month 13 stands for the end of the year. */
  function DaysBeforeMonth(y: nat, m: nat): nat
    requires 1 <= m <= 13
  {
    if m == 1 then 0 else DaysBeforeMonth(y, m - 1) + DaysInMonth(y, m - 1)
  }

  predicate ValidDate(d: Date) {
    1 <= d.year && 1 <= d.month <= 12 && 1 <= d.day <= DaysInMonth(d.year, d.month)
  }

  function Ordinal(d: Date): (n: nat)
    requires ValidDate(d)
    ensures 1 <= n
  {
    DaysBeforeYear(d.year) + DaysBeforeMonth(d.year, d.month) + d.day
  }

  lemma YearStep(y: nat)
    requires 1 <= y
    ensures DaysBeforeYear(y + 1) == DaysBeforeYear(y) + DaysInYear(y)
  {
    FourthsStep(y);
    CenturiesStep(y);
    FourCenturiesStep(y);
    MultiplesNest(y);
  }

  lemma FourthsStep(y: nat)
    requires 1 <= y
    ensures y / 4 == (y - 1) / 4 + if y % 4 == 0 then 1 else 0
  {
  }

  lemma CenturiesStep(y: nat)
    requires 1 <= y
    ensures y / 100 == (y - 1) / 100 + if y % 100 == 0 then 1 else 0
  {
  }

  lemma FourCenturiesStep(y: nat)
    requires 1 <= y
    ensures y / 400 == (y - 1) / 400 + if y % 400 == 0 then 1 else 0
  {
  }

  lemma MultiplesNest(y: nat)
    ensures y % 100 == 0 ==> y % 4 == 0
    ensures y % 400 == 0 ==> y % 100 == 0
  {
    if y % 100 == 0 {
      FourTimes(25 * (y / 100));
    }
    if y % 400 == 0 {
      HundredTimes(4 * (y / 400));
    }
  }

  lemma FourTimes(k: nat)
    ensures (4 * k) % 4 == 0
  {
  }

  lemma HundredTimes(k: nat)
    ensures (100 * k) % 100 == 0
  {
  }

  lemma MonthsMakeYear(y: nat)
    ensures DaysBeforeMonth(y, 13) == DaysInYear(y)
  {
    assert DaysBeforeMonth(y, 2) == 31;
    assert DaysBeforeMonth(y, 3) == 31 + DaysInMonth(y, 2);
    assert DaysBeforeMonth(y, 5) == DaysBeforeMonth(y, 3) + 61;
    assert DaysBeforeMonth(y, 7) == DaysBeforeMonth(y, 5) + 61;
    assert DaysBeforeMonth(y, 9) == DaysBeforeMonth(y, 7) + 62;
    assert DaysBeforeMonth(y, 11) == DaysBeforeMonth(y, 9) + 61;
    assert DaysBeforeMonth(y, 13) == DaysBeforeMonth(y, 11) + 61;
  }

  /** The year that holds day n, searched upwards from a year that starts before it. */
  function YearFrom(n: nat, y: nat): (r: nat)
    requires 1 <= y && DaysBeforeYear(y) < n
    ensures y <= r && DaysBeforeYear(r) < n <= DaysBeforeYear(r + 1)
    decreases n - DaysBeforeYear(y)
  {
    YearStep(y);
    if n <= DaysBeforeYear(y + 1) then y else YearFrom(n, y + 1)
  }

  /** The month of year y that holds the k-th day of that year. */
  function MonthFrom(y: nat, k: nat, m: nat): (r: nat)
    requires 1 <= m <= 12 && DaysBeforeMonth(y, m) < k <= DaysBeforeMonth(y, 13)
    ensures m <= r <= 12 && DaysBeforeMonth(y, r) < k <= DaysBeforeMonth(y, r + 1)
    decreases 12 - m
  {
    if k <= DaysBeforeMonth(y, m + 1) then m else MonthFrom(y, k, m + 1)
  }

  function DateOf(n: nat): (d: Date)
    requires 1 <= n
    ensures ValidDate(d)
  {
    var y := YearFrom(n, 1);
    YearStep(y);
    MonthsMakeYear(y);
    var k := n - DaysBeforeYear(y);
    var m := MonthFrom(y, k, 1);
    Date(y, m, k - DaysBeforeMonth(y, m))
  }

  lemma OrdinalOfDate(n: nat)
    requires 1 <= n
    ensures Ordinal(DateOf(n)) == n
  {
  }

  /** Sunday is 0, as cron counts: day 1 was a Monday. */
  function Weekday(n: nat): nat {
    n % 7
  }

  function DayOf(minute: nat): (n: nat)
    ensures 1 <= n
  {
    minute / MINUTES_PER_DAY + 1
  }

  function Midnight(n: nat): nat
    requires 1 <= n
  {
    (n - 1) * MINUTES_PER_DAY
  }

  function HourOf(minute: nat): nat {
    minute % MINUTES_PER_DAY / 60
  }

  function MinuteOf(minute: nat): nat {
    minute % 60
  }

  // Uniqueness of dates

  lemma {:induction false} YearsIncrease(a: nat, b: nat)
    requires 1 <= a <= b
    ensures DaysBeforeYear(a) + 365 * (b - a) <= DaysBeforeYear(b) <= DaysBeforeYear(a) + 366 * (b - a)
    decreases b
  {
    if a < b {
      YearsIncrease(a, b - 1);
      YearStep(b - 1);
    }
  }

  lemma {:induction false} MonthsIncrease(y: nat, a: nat, b: nat)
    requires 1 <= a <= b <= 13
    ensures DaysBeforeMonth(y, a) <= DaysBeforeMonth(y, b)
    ensures a < b ==> DaysBeforeMonth(y, a) + DaysInMonth(y, a) <= DaysBeforeMonth(y, b)
    decreases b
  {
    if a < b {
      MonthsIncrease(y, a, b - 1);
    }
  }

  lemma DayWithinYear(d: Date)
    requires ValidDate(d)
    ensures DaysBeforeYear(d.year) < Ordinal(d) <= DaysBeforeYear(d.year + 1)
  {
    YearStep(d.year);
    MonthsMakeYear(d.year);
    MonthsIncrease(d.year, d.month, 13);
  }

  /** `DateOf` is a left inverse of `Ordinal`: no two dates share a day number. */
  lemma DateOfOrdinal(d: Date)
    requires ValidDate(d)
    ensures DateOf(Ordinal(d)) == d
  {
    hide DateOf, DaysBeforeYear, DaysBeforeMonth, DaysInMonth, DaysInYear, IsLeap;
    var e := DateOf(Ordinal(d));
    OrdinalOfDate(Ordinal(d));
    DayWithinYear(d);
    DayWithinYear(e);
    if d.year < e.year {
      YearsIncrease(d.year + 1, e.year);
      assert false;
    }
    if e.year < d.year {
      YearsIncrease(e.year + 1, d.year);
      assert false;
    }
    if d.month < e.month {
      MonthsIncrease(d.year, d.month, e.month);
      assert false;
    }
    if e.month < d.month {
      MonthsIncrease(d.year, e.month, d.month);
      assert false;
    }
  }

  /** A minute is its day's midnight, plus its hour and minute. */
  lemma ClockOf(n: nat, h: nat, m: nat)
    requires 1 <= n && h < 24 && m < 60
    ensures var t := Midnight(n) + 60 * h + m;
            DayOf(t) == n && HourOf(t) == h && MinuteOf(t) == m
  {
    var t := Midnight(n) + 60 * h + m;
    assert t == (n - 1) * MINUTES_PER_DAY + (60 * h + m);
    assert t / MINUTES_PER_DAY == n - 1 && t % MINUTES_PER_DAY == 60 * h + m;
    assert t == 60 * (24 * (n - 1) + h) + m;
  }

  lemma ClockTime(t: nat)
    ensures t == Midnight(DayOf(t)) + 60 * HourOf(t) + MinuteOf(t)
  {
    assert t % 60 == t % MINUTES_PER_DAY % 60;
  }

  lemma MidnightOf(t: nat)
    requires HourOf(t) == 0 && MinuteOf(t) == 0
    ensures t == Midnight(DayOf(t))
  {
    assert t % MINUTES_PER_DAY < 60 && t % 60 == t % MINUTES_PER_DAY % 60;
  }

  lemma OneMidnightWithin(n: nat, t: nat)
    requires 1 <= n && Midnight(n) < t < Midnight(n) + 2 * MINUTES_PER_DAY && t == Midnight(DayOf(t))
    ensures DayOf(t) == n + 1
  {
  }

  lemma SecondOfMonth(y: nat, m: nat)
    requires 1 <= y && 1 <= m <= 12
    ensures DateOf(Ordinal(Date(y, m, 1)) + 1) == Date(y, m, 2)
  {
    NextDay(y, m);
    hide DateOf, Ordinal;
    DateOfOrdinal(Date(y, m, 2));
  }

  lemma NextDay(y: nat, m: nat)
    requires 1 <= y && 1 <= m <= 12
    ensures Ordinal(Date(y, m, 2)) == Ordinal(Date(y, m, 1)) + 1
  {
    hide DaysBeforeYear, DaysBeforeMonth, IsLeap;
  }

  // The calendar on the wall

  /** Thirty days have September, April, June and November; February has 28, or 29 in a leap year. */
  const LAST_DAYS := [31, 28, 31, 30, 31, 30, 31, 31, 30, 31, 30, 31]

  /** Within a month the days follow one another. */
  lemma DaysFollow(d: Date)
    requires ValidDate(d) && ValidDate(Date(d.year, d.month, d.day + 1))
    ensures Ordinal(Date(d.year, d.month, d.day + 1)) == Ordinal(d) + 1
  {
    hide DaysBeforeYear, DaysBeforeMonth, DaysInMonth;
  }

  /** Each month ends on the day the wall calendar says, and the next day is the first of the next
      month, or of the next year. */
  lemma MonthsFollow(y: nat, m: nat)
    requires 1 <= y && 1 <= m <= 12
    ensures var last := LAST_DAYS[m - 1] + if m == 2 && (y % 400 == 0 || (y % 4 == 0 && y % 100 != 0)) then 1 else 0;
            && ValidDate(Date(y, m, last)) && !ValidDate(Date(y, m, last + 1))
            && Ordinal(if m == 12 then Date(y + 1, 1, 1) else Date(y, m + 1, 1)) == Ordinal(Date(y, m, last)) + 1
  {
    if y % 400 == 0 {
      MultiplesNest(y);
    }
    if m == 12 {
      YearStep(y);
      MonthsMakeYear(y);
    }
    hide DaysBeforeYear;
  }

  /** 1 January 2024 was a Monday, and each day is followed by the next day of the week. */
  lemma WeekdaysFollow(n: nat)
    ensures Weekday(Ordinal(Date(2024, 1, 1))) == 1
    ensures Weekday(n) < 7 && Weekday(n + 1) == (Weekday(n) + 1) % 7
  {
    assert DaysBeforeYear(2024) == 738885;
  }

  /** So the weekday of any day is counted off from Sunday 7 January 2024, either way. */
  lemma WeekdayCounts(n: nat)
    ensures Weekday(n) == (n - Ordinal(Date(2024, 1, 7))) % 7
  {
    assert DaysBeforeYear(2024) == 738885;
    assert Ordinal(Date(2024, 1, 7)) == 738892 == 7 * 105556;
  }
}
