/** Five years of look-ahead are enough for every schedule that names a real date, up to the
    day before the leap day of 2096; after it, 29 February alone is out of reach. */
module LookAhead {
  import opened Wrappers
  import opened Calendar
  import opened Schedule

  /** The schedule names some date that exists. */
  ghost predicate NamesRealDate(s: CronSchedule) {
    exists n: nat | 1 <= n :: s.DateCouldMatch(n)
  }

  /** A month and day of the month that exist in every year. */
  predicate CommonDay(m: nat, d: nat) {
    1 <= m <= 12 && 1 <= d <= DaysInMonth(1, m)
  }

  /** The schedule can be met in every year: not by 29 February alone. */
  ghost predicate NamesEveryYear(s: CronSchedule) {
    s.weekdayRestricted || exists m, d | m in s.months && d in s.days :: CommonDay(m, d)
  }

  /** Midnight of the leap day of year y. */
  function LeapDay(y: nat): (n: nat)
    requires 1 <= y && IsLeap(y)
    ensures 1 <= n
  {
    Ordinal(Date(y, 2, 29))
  }

  lemma BeforeMidnight(t: nat, n: nat)
    requires 1 <= n
    ensures t < Midnight(n) <==> DayOf(t) < n
  {
  }

  /** A named clock time on a day whose date can match is found, if the day is in reach. */
  lemma FoundOnDay(s: CronSchedule, after: nat, n: nat)
    requires WellFormed(s) && 1 <= n && s.DateCouldMatch(n)
    requires DayOf(SlotOf(after)) < n < DayOf(SlotOf(after)) + 1830
    ensures NextSlotOf(s, after).Some?
  {
    var h :| h in s.hours;
    var m :| m in s.minutes;
    NamedAt(s, n, h, m);
    var t := Midnight(n) + 60 * h + m;
    BeforeMidnight(SlotOf(after), n);
    BeforeMidnight(SlotOf(after), DayOf(SlotOf(after)));
    assert t <= SlotOf(after) + 1830 * MINUTES_PER_DAY;
    NextSlotIsEarliest(s, after);
  }

  /** Every weekday falls in the first seven days of every month. */
  lemma FirstWeekHas(y: nat, m: nat, w: nat) returns (d: nat)
    requires 1 <= y && 1 <= m <= 12 && w < 7
    ensures 1 <= d <= 7 && Weekday(Ordinal(Date(y, m, d))) == w
  {
    var first := Ordinal(Date(y, m, 1));
    d := 1 + (w + 7 - first % 7) % 7;
    assert Ordinal(Date(y, m, d)) == first + (d - 1);
  }

  /** A schedule that does not hang on 29 February matches some date of every year. */
  lemma MatchesInYear(s: CronSchedule, y: nat) returns (e: Date)
    requires WellFormed(s) && NamesEveryYear(s) && 1 <= y
    ensures ValidDate(e) && e.year == y && s.DateCouldMatch(Ordinal(e))
  {
    if s.weekdayRestricted {
      var m :| m in s.months;
      var w :| w in s.weekdays;
      var d := FirstWeekHas(y, m, w);
      e := Date(y, m, d);
    } else {
      var m, d :| m in s.months && d in s.days && CommonDay(m, d);
      e := Date(y, m, d);
    }
    DateOfOrdinal(e);
  }

  lemma YearOfDay(n: nat)
    requires 1 <= n
    ensures var y := DateOf(n).year; 1 <= y && DaysBeforeYear(y) < n <= DaysBeforeYear(y) + DaysInYear(y)
  {
    DayWithinYear(DateOf(n));
    OrdinalOfDate(n);
    YearStep(DateOf(n).year);
  }

  /** No bound on the year: a date that every year has is always within reach. */
  lemma EveryYearIsInReach(s: CronSchedule, after: nat)
    requires WellFormed(s) && NamesEveryYear(s)
    ensures NextSlotOf(s, after).Some?
  {
    var today := DayOf(SlotOf(after));
    var y := DateOf(today).year;
    YearOfDay(today);
    var e := MatchesInYear(s, y + 1);
    DateOfOrdinal(e);
    YearOfDay(Ordinal(e));
    YearStep(y);
    FoundOnDay(s, after, Ordinal(e));
  }

  lemma LeapDayMatches(s: CronSchedule, y: nat)
    requires WellFormed(s) && 2 in s.months && 29 in s.days && !s.weekdayRestricted
    requires 1 <= y && IsLeap(y)
    ensures s.DateCouldMatch(LeapDay(y))
  {
    DateOfOrdinal(Date(y, 2, 29));
    assert Weekday(LeapDay(y)) < 7;
  }

  /** A leap day after today, within the next four years and a day, is within reach. */
  lemma LeapDayIsInReach(s: CronSchedule, after: nat, y: nat)
    requires WellFormed(s) && 2 in s.months && 29 in s.days && !s.weekdayRestricted
    requires 1 <= y && IsLeap(y)
    requires DayOf(SlotOf(after)) < LeapDay(y) <= DayOf(SlotOf(after)) + 1462
    ensures NextSlotOf(s, after).Some?
  {
    LeapDayMatches(s, y);
    FoundOnDay(s, after, LeapDay(y));
  }

  /** The parser leaves only two ways for a schedule with no everyday date to match at all. */
  lemma OnlyLeapDay(s: CronSchedule, n: nat)
    requires WellFormed(s) && !NamesEveryYear(s) && 1 <= n && s.DateCouldMatch(n)
    ensures var d := DateOf(n); d.month == 2 && d.day == 29 && IsLeap(d.year)
    ensures 2 in s.months && 29 in s.days && !s.weekdayRestricted
  {
    var d := DateOf(n);
    assert !CommonDay(d.month, d.day);
  }

  /** A minute the schedule names on a leap day, in the five years after an instant. */
  predicate LeapMinute(s: CronSchedule, after: nat, y: nat, h: nat, m: nat) {
    && 1 <= y && IsLeap(y) && h in s.hours && m in s.minutes
    && SlotOf(after) < Midnight(LeapDay(y)) + 60 * h + m <= SlotOf(after) + 1 + MAX_LOOKAHEAD
  }

  lemma FoundOnLeapDay(s: CronSchedule, after: nat) returns (y: nat, h: nat, m: nat)
    requires WellFormed(s) && NextSlotOf(s, after).Some? && !NamesEveryYear(s)
    ensures 2 in s.months && 29 in s.days && !s.weekdayRestricted && LeapMinute(s, after, y, h, m)
  {
    NextSlotIsEarliest(s, after);
    var t := NextSlotOf(s, after).value;
    MatchesByParts(s, t);
    var n := DayOf(t);
    hide NextSlotOf, DayOf, SlotOf, HourOf, MinuteOf, Midnight, DateOf;
    OnlyLeapDay(s, n);
    OrdinalOfDate(n);
    ClockTime(t);
    y, h, m := DateOf(n).year, HourOf(t), MinuteOf(t);
    assert DateOf(n) == Date(y, 2, 29);
  }

  lemma FoundAtLeapMinute(s: CronSchedule, after: nat, y: nat, h: nat, m: nat)
    requires WellFormed(s) && 2 in s.months && 29 in s.days && !s.weekdayRestricted && LeapMinute(s, after, y, h, m)
    ensures NextSlotOf(s, after).Some?
  {
    hide NextSlotOf, DayOf, Midnight, DateOf, LeapDay;
    LeapDayMatches(s, y);
    NamedAt(s, LeapDay(y), h, m);
    NextSlotIsEarliest(s, after);
  }

  /** Whatever the instant, the next slot exists exactly when the schedule names a date that every
      year has, or names 29 February and one of its minutes on a leap day is within five years. */
  lemma InReachIff(s: CronSchedule, after: nat)
    requires WellFormed(s)
    ensures NextSlotOf(s, after).Some? <==>
            || NamesEveryYear(s)
            || (2 in s.months && 29 in s.days && !s.weekdayRestricted && exists y, h, m :: LeapMinute(s, after, y, h, m))
  {
    hide NextSlotOf, LeapMinute, NamesEveryYear, WellFormed;
    if NamesEveryYear(s) {
      EveryYearIsInReach(s, after);
    } else if NextSlotOf(s, after).Some? {
      var y, h, m := FoundOnLeapDay(s, after);
    }
    if 2 in s.months && 29 in s.days && !s.weekdayRestricted {
      if y, h, m :| LeapMinute(s, after, y, h, m) {
        FoundAtLeapMinute(s, after, y, h, m);
      }
    }
  }

  lemma LeapDayIs(y: nat)
    requires 1 <= y && IsLeap(y)
    ensures LeapDay(y) == DaysBeforeYear(y) + 60
  {
    assert DaysBeforeMonth(y, 2) == 31;
  }

  lemma NewYearIs(y: nat)
    requires 1 <= y
    ensures Ordinal(Date(y, 1, 1)) == DaysBeforeYear(y) + 1
  {
  }

  /** From 2001 to 2096 every fourth year is a leap year. */
  lemma ThisCentury(y: nat)
    requires 2001 <= y <= 2097
    ensures DaysBeforeYear(y) == 365 * (y - 1) + (y - 1) / 4 - 15
    ensures y <= 2096 ==> (IsLeap(y) <==> y % 4 == 0)
  {
    assert (y - 1) / 100 == 20 && (y - 1) / 400 == 5;
    assert y <= 2096 ==> y % 100 != 0;
  }

  lemma YearsOrdered(a: nat, b: nat)
    requires 1 <= a && 1 <= b && DaysBeforeYear(a) < DaysBeforeYear(b)
    ensures a < b
  {
    if b <= a {
      YearsIncrease(b, a);
    }
  }

  lemma YearAtLeast(n: nat, lo: nat)
    requires 1 <= lo && DaysBeforeYear(lo) < n
    ensures lo <= DateOf(n).year
  {
    hide DateOf, DaysBeforeYear, IsLeap;
    YearOfDay(n);
    YearStep(DateOf(n).year);
    YearsOrdered(lo, DateOf(n).year + 1);
  }

  lemma YearAtMost(n: nat, hi: nat)
    requires 1 <= hi && 1 <= n <= DaysBeforeYear(hi + 1)
    ensures DateOf(n).year <= hi
  {
    YearOfDay(n);
    YearsOrdered(DateOf(n).year, hi + 1);
  }

  lemma NextMultipleOfFour(now: nat, before: nat, today: nat) returns (y: nat)
    requires 2001 <= now <= 2096
    requires before == 365 * (now - 1) + (now - 1) / 4 - 15
    requires before < today <= before + (if now % 4 == 0 then 366 else 365)
    requires now == 2096 ==> today < before + 60
    ensures 2001 <= y <= 2096 && y % 4 == 0
    ensures today < 365 * (y - 1) + (y - 1) / 4 - 15 + 60 <= today + 1462
  {
    y := if now % 4 == 0 && today < before + 60 then now else now + 4 - now % 4;
  }

  /** The next leap day after a day of 2001 to the eve of 29 February 2096. */
  lemma NextLeapDay(today: nat) returns (y: nat)
    requires Ordinal(Date(2001, 1, 1)) <= today < LeapDay(2096)
    ensures 1 <= y && IsLeap(y) && today < LeapDay(y) <= today + 1462
  {
    NewYearIs(2001);
    YearAtLeast(today, 2001);
    LeapDayIs(2096);
    YearAtMost(today, 2096);
    YearOfDay(today);
    y := NextLeapDayOf(DateOf(today).year, today);
  }

  lemma NextLeapDayOf(now: nat, today: nat) returns (y: nat)
    requires 2001 <= now <= 2096
    requires DaysBeforeYear(now) < today <= DaysBeforeYear(now) + DaysInYear(now)
    requires today < DaysBeforeYear(2096) + 60
    ensures 1 <= y && IsLeap(y) && today < LeapDay(y) <= today + 1462
  {
    ThisCentury(now);
    ThisCentury(2096);
    y := NextMultipleOfFour(now, DaysBeforeYear(now), today);
    ThisCentury(y);
    LeapDayIs(y);
  }

  /** For every instant from 2001 to 28 February 2096, the next slot exists exactly when the
      schedule names a date that exists. */
  lemma FiveYearBound(s: CronSchedule, after: nat)
    requires WellFormed(s)
    requires Midnight(Ordinal(Date(2001, 1, 1))) <= SlotOf(after) < Midnight(LeapDay(2096))
    ensures NextSlotOf(s, after).Some? <==> NamesRealDate(s)
  {
    if NextSlotOf(s, after).Some? {
      NextSlotIsEarliest(s, after);
      var t := NextSlotOf(s, after).value;
      MatchesByParts(s, t);
      assert s.DateCouldMatch(DayOf(t));
    }
    if NamesRealDate(s) {
      if NamesEveryYear(s) {
        EveryYearIsInReach(s, after);
      } else {
        var n: nat :| 1 <= n && s.DateCouldMatch(n);
        OnlyLeapDay(s, n);
        BeforeMidnight(SlotOf(after), Ordinal(Date(2001, 1, 1)));
        BeforeMidnight(SlotOf(after), LeapDay(2096));
        var y := NextLeapDay(DayOf(SlotOf(after)));
        LeapDayIsInReach(s, after, y);
      }
    }
  }

  /** `0 0 29 2 *` */
  const LEAP_DAY_ONLY := CronSchedule(
    {0}, {0}, {29}, {2}, set w: nat | w < 7, true, false, "0 0 29 2 *")

  /** After 29 February 2096 there is no leap day for more than five years. */
  lemma NoLeapDaySoon(y: nat)
    requires 2096 < y && IsLeap(y)
    ensures LeapDay(2096) + 1831 < LeapDay(y)
  {
    assert 2104 <= y by {
      assert !IsLeap(2100) && !IsLeap(2097) && !IsLeap(2098) && !IsLeap(2099);
      assert !IsLeap(2101) && !IsLeap(2102) && !IsLeap(2103);
    }
    YearsIncrease(2104, y);
    LeapDayIs(y);
    LeapDayIs(2096);
  }

  lemma LeapDayOnlyNames(t: nat)
    requires LEAP_DAY_ONLY.Matches(t)
    ensures t == Midnight(DayOf(t))
    ensures DateOf(DayOf(t)).month == 2 && DateOf(DayOf(t)).day == 29
  {
    OnlyMidnight(LEAP_DAY_ONLY, t);
  }

  lemma LeapDayOnlyIsWellFormed()
    ensures WellFormed(LEAP_DAY_ONLY)
  {
    var s := LEAP_DAY_ONLY;
    assert 0 in s.weekdays && 0 in s.minutes && 0 in s.hours && 29 in s.days && 2 in s.months;
  }

  /** The bound is sharp: from midnight on 29 February 2096 the next leap day, in 2104, is
      more than five years away, and a real schedule is reported as never running. */
  lemma LeapDayOutOfReach(after: nat)
    requires SlotOf(after) == Midnight(LeapDay(2096))
    ensures WellFormed(LEAP_DAY_ONLY) && NamesRealDate(LEAP_DAY_ONLY)
    ensures NextSlotOf(LEAP_DAY_ONLY, after).None?
  {
    LeapDayOnlyIsWellFormed();
    LeapDayMatches(LEAP_DAY_ONLY, 2096);
    NextSlotIsEarliest(LEAP_DAY_ONLY, after);
    if NextSlotOf(LEAP_DAY_ONLY, after).Some? {
      var t := NextSlotOf(LEAP_DAY_ONLY, after).value;
      LeapDayOnlyNames(t);
      var n := DayOf(t);
      assert Midnight(LeapDay(2096)) < Midnight(n) <= Midnight(LeapDay(2096)) + 1831 * MINUTES_PER_DAY;
      NotFrom2096(n);
      assert false;
    }
  }

  /** No other day of the five years after 29 February 2096 is a leap day. */
  lemma NotFrom2096(n: nat)
    requires LeapDay(2096) < n <= LeapDay(2096) + 1831
    ensures var d := DateOf(n); !(d.month == 2 && d.day == 29)
  {
    var d := DateOf(n);
    OrdinalOfDate(n);
    if d.month == 2 && d.day == 29 {
      assert d == Date(d.year, 2, 29) && n == LeapDay(d.year);
      if d.year <= 2096 {
        LeapDayIs(2096);
        LeapDayIs(d.year);
        YearsIncrease(d.year, 2096);
      } else {
        NoLeapDaySoon(d.year);
      }
    }
  }
}
