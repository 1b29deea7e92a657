/** Evaluating a parsed cron schedule: which minutes it names, the latest one due and the
    next one to come. */
module Schedule {
  import opened Wrappers
  import opened Search
  import opened Calendar

  /** How far back `DueSlot` looks: 25 hours. */
  const MAX_CATCHUP: nat := 25 * 60

  /** How far ahead `NextSlot` looks: five years of 366 days. */
  const MAX_LOOKAHEAD: nat := 366 * 5 * MINUTES_PER_DAY

  datatype CronSchedule = CronSchedule(
    minutes: set<nat>,
    hours: set<nat>,
    days: set<nat>,
    months: set<nat>,
    weekdays: set<nat>,
    dayRestricted: bool,
    weekdayRestricted: bool,
    expression: string)
  {
    predicate Matches(when: nat) {
      if MinuteOf(when) !in minutes then false
      else if HourOf(when) !in hours then false
      else
        var date := DateOf(DayOf(when));
        if date.month !in months then false
        else
          var dayOk := date.day in days;
          var weekdayOk := Weekday(DayOf(when)) in weekdays;
          if dayRestricted && weekdayRestricted then dayOk || weekdayOk else dayOk && weekdayOk
    }

    predicate DateCouldMatch(n: nat)
      requires 1 <= n
    {
      var date := DateOf(n);
      if date.month !in months then false
      else
        var dayOk := date.day in days;
        var weekdayOk := Weekday(n) in weekdays;
        if dayRestricted && weekdayRestricted then dayOk || weekdayOk else dayOk && weekdayOk
    }
  }

  /** What the parser guarantees of a schedule: no field is empty, every value is in range, and
      a day field left as `*` holds every day. */
  ghost predicate WellFormed(s: CronSchedule) {
    && s.minutes != {} && (forall x | x in s.minutes :: x < 60)
    && s.hours != {} && (forall x | x in s.hours :: x < 24)
    && s.days != {} && (forall x | x in s.days :: 1 <= x <= 31)
    && s.months != {} && (forall x | x in s.months :: 1 <= x <= 12)
    && s.weekdays != {} && (forall x | x in s.weekdays :: x < 7)
    && (!s.dayRestricted ==> forall d: nat | 1 <= d <= 31 :: d in s.days)
    && (!s.weekdayRestricted ==> forall w: nat | w < 7 :: w in s.weekdays)
  }

  /** A minute is named iff its clock time is and its date could be: the two tests agree. */
  lemma MatchesByParts(s: CronSchedule, t: nat)
    ensures s.Matches(t) <==>
            MinuteOf(t) in s.minutes && HourOf(t) in s.hours && s.DateCouldMatch(DayOf(t))
  {
  }

  /** The two day fields: one left as `*` has no say, and of two that are restricted either will do. */
  lemma DateRule(s: CronSchedule, n: nat)
    requires WellFormed(s) && 1 <= n
    ensures s.DateCouldMatch(n) <==>
            && DateOf(n).month in s.months
            && if s.dayRestricted && s.weekdayRestricted then DateOf(n).day in s.days || Weekday(n) in s.weekdays
               else if s.dayRestricted then DateOf(n).day in s.days
               else Weekday(n) in s.weekdays
  {
    WeekdaysFollow(n);
    var last := DaysInMonth(DateOf(n).year, DateOf(n).month);
  }

  lemma WeekLater(t: nat)
    ensures var u := t + 7 * MINUTES_PER_DAY;
            DayOf(u) == DayOf(t) + 7 && HourOf(u) == HourOf(t) && MinuteOf(u) == MinuteOf(t)
  {
    assert 7 * MINUTES_PER_DAY == 60 * 168;
  }

  lemma NamedByWeekday(s: CronSchedule, t: nat)
    requires WellFormed(s) && !s.dayRestricted && s.weekdayRestricted && forall m: nat | 1 <= m <= 12 :: m in s.months
    ensures s.Matches(t) <==> MinuteOf(t) in s.minutes && HourOf(t) in s.hours && Weekday(DayOf(t)) in s.weekdays
  {
    MatchesByParts(s, t);
    DateRule(s, DayOf(t));
    hide DayOf, HourOf, MinuteOf, Weekday, Ordinal;
  }

  /** A schedule of some weekdays names them as counted off from Sunday 7 January 2024. */
  lemma WeeklyNames(s: CronSchedule, t: nat)
    requires WellFormed(s) && !s.dayRestricted && s.weekdayRestricted && forall m: nat | 1 <= m <= 12 :: m in s.months
    ensures s.Matches(t) <==>
            MinuteOf(t) in s.minutes && HourOf(t) in s.hours && (DayOf(t) - Ordinal(Date(2024, 1, 7))) % 7 in s.weekdays
  {
    hide *;
    NamedByWeekday(s, t);
    WeekdayCounts(DayOf(t));
  }

  /** And it names the same minutes every seven days. */
  lemma WeeklyRecurs(s: CronSchedule, t: nat)
    requires WellFormed(s) && !s.dayRestricted && s.weekdayRestricted && forall m: nat | 1 <= m <= 12 :: m in s.months
    ensures s.Matches(t + 7 * MINUTES_PER_DAY) <==> s.Matches(t)
  {
    WeekLater(t);
    assert Weekday(DayOf(t) + 7) == Weekday(DayOf(t));
    hide *;
    NamedByWeekday(s, t);
    NamedByWeekday(s, t + 7 * MINUTES_PER_DAY);
  }

  lemma NamedAt(s: CronSchedule, n: nat, h: nat, m: nat)
    requires 1 <= n && s.DateCouldMatch(n) && h < 24 && h in s.hours && m < 60 && m in s.minutes
    ensures s.Matches(Midnight(n) + 60 * h + m)
  {
    ClockOf(n, h, m);
    MatchesByParts(s, Midnight(n) + 60 * h + m);
  }

  /** On a `0 0` schedule the only named minute of a day is its midnight. */
  lemma OnlyMidnight(s: CronSchedule, t: nat)
    requires s.minutes == {0} && s.hours == {0} && s.Matches(t)
    ensures t == Midnight(DayOf(t)) && s.DateCouldMatch(DayOf(t))
  {
    MatchesByParts(s, t);
    MidnightOf(t);
  }

  function NextMidnight(t: nat): (r: nat)
    ensures t < r
  {
    Midnight(DayOf(t) + 1)
  }

  /** When a date cannot match, no minute from here to the next midnight is named. */
  lemma DayCannotMatch(s: CronSchedule, t: nat)
    requires !s.DateCouldMatch(DayOf(t))
    ensures NoneIn(s.Matches, t, NextMidnight(t))
  {
    forall u: nat | t <= u < NextMidnight(t) ensures !s.Matches(u) {
      assert DayOf(u) == DayOf(t);
      MatchesByParts(s, u);
    }
  }

  /** The slot an instant in seconds falls in: its minute. */
  function SlotOf(instant: nat): nat {
    instant / 60
  }

  /** The most recent named minute at or before `moment`, searched one by one for 25 hours. */
  function DueSlotOf(s: CronSchedule, moment: nat): Option<nat>
  {
    Last(s.Matches, SlotOf(moment) - MAX_CATCHUP, SlotOf(moment))
  }

  /** The first named minute strictly after `after`, searched one by one for five years. */
  function NextSlotOf(s: CronSchedule, after: nat): Option<nat>
  {
    First(s.Matches, SlotOf(after) + 1, SlotOf(after) + 1 + MAX_LOOKAHEAD)
  }

  /** The slot owed is the latest named minute of the last 25 hours, or there is none. */
  lemma DueSlotIsLatest(s: CronSchedule, moment: nat)
    ensures match DueSlotOf(s, moment)
            case Some(t) =>
              && moment / 60 - 25 * 60 <= t <= moment / 60 && s.Matches(t)
              && forall u: nat | t < u <= moment / 60 :: !s.Matches(u)
            case None => forall u: nat | moment / 60 - 25 * 60 <= u <= moment / 60 :: !s.Matches(u)
  {
    hide Last, First, DateOf, DayOf, Weekday, MinuteOf, HourOf;
    LastIsLast(s.Matches, SlotOf(moment) - MAX_CATCHUP, SlotOf(moment));
    assert SlotOf(moment) == moment / 60 && MAX_CATCHUP == 25 * 60;
  }

  lemma DueSlotIs(s: CronSchedule, moment: nat, t: nat)
    requires SlotOf(moment) - MAX_CATCHUP <= t <= SlotOf(moment)
    requires s.Matches(t) && NoneIn(s.Matches, t + 1, SlotOf(moment) + 1)
    ensures DueSlotOf(s, moment) == Some(t)
  {
    LastAt(s.Matches, SlotOf(moment) - MAX_CATCHUP, t, SlotOf(moment));
  }

  /** The next slot is the earliest named minute after `after`, or five years hold none. */
  lemma NextSlotIsEarliest(s: CronSchedule, after: nat)
    ensures match NextSlotOf(s, after)
            case Some(t) =>
              && after / 60 < t <= after / 60 + 1 + 5 * 366 * 24 * 60 && s.Matches(t)
              && forall u: nat | after / 60 < u < t :: !s.Matches(u)
            case None => forall u: nat | after / 60 < u <= after / 60 + 1 + 5 * 366 * 24 * 60 :: !s.Matches(u)
  {
    hide Last, First, DateOf, DayOf, Weekday, MinuteOf, HourOf;
    FirstIsFirst(s.Matches, SlotOf(after) + 1, SlotOf(after) + 1 + MAX_LOOKAHEAD);
    assert SlotOf(after) == after / 60 && MAX_LOOKAHEAD == 5 * 366 * 24 * 60;
  }

  method DueSlot(s: CronSchedule, now: nat) returns (r: Option<nat>)
    ensures r == DueSlotOf(s, now)
  {
    var cursor: int := SlotOf(now);
    var earliest := cursor - MAX_CATCHUP;
    while cursor >= earliest && cursor >= 0
      invariant cursor >= 0 ==> DueSlotOf(s, now) == Last(s.Matches, earliest, cursor)
      invariant cursor < 0 ==> DueSlotOf(s, now) == None
    {
      if s.Matches(cursor) {
        return Some(cursor);
      }
      cursor := cursor - 1;
    }
    return None;
  }

  /** Whole days that cannot match are skipped; the answer is the minute-by-minute one. */
  method NextSlot(s: CronSchedule, after: nat) returns (r: Option<nat>)
    ensures r == NextSlotOf(s, after)
  {
    var cursor := SlotOf(after) + 1;
    var deadline := cursor + MAX_LOOKAHEAD;
    while cursor <= deadline
      invariant NextSlotOf(s, after) == First(s.Matches, cursor, deadline)
      decreases deadline - cursor
    {
      if s.Matches(cursor) {
        return Some(cursor);
      }
      if !s.DateCouldMatch(DayOf(cursor)) {
        DayCannotMatch(s, cursor);
        FirstSkips(s.Matches, cursor, NextMidnight(cursor), deadline);
        cursor := NextMidnight(cursor);
        continue;
      }
      cursor := cursor + 1;
    }
    return None;
  }
}
