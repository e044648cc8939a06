/**
 Cron schedules and the minute-by-minute search for the next run. Instants are milliseconds of
 local time without daylight saving; a whole minute is a multiple of 60000.
 */
module Cron {
  import opened Options
  import opened Calendar

  datatype Schedule = Schedule(
    minute: set<int>, hour: set<int>, dayOfMonth: set<int>, month: set<int>, dayOfWeek: set<int>,
    dayOfMonthRestricted: bool, dayOfWeekRestricted: bool)

  /** What parsing guarantees. */
  ghost predicate WellFormed(s: Schedule) {
    && s.minute != {} && (forall x :: x in s.minute ==> 0 <= x < 60)
    && s.hour != {} && (forall x :: x in s.hour ==> 0 <= x < 24)
    && s.dayOfMonth != {} && (forall x :: x in s.dayOfMonth ==> 1 <= x <= 31)
    && s.month != {} && (forall x :: x in s.month ==> 1 <= x <= 12)
    && s.dayOfWeek != {} && (forall x :: x in s.dayOfWeek ==> 0 <= x < 7)
    && (!s.dayOfMonthRestricted ==> forall x :: 1 <= x <= 31 ==> x in s.dayOfMonth)
    && (!s.dayOfWeekRestricted ==> forall x :: 0 <= x < 7 ==> x in s.dayOfWeek)
  }

  /** The part of the match that depends on the day; restricted day fields are alternatives. */
  predicate DayMatches(s: Schedule, day: int) {
    var dom, dow := DateOf(day) in s.dayOfMonth, WeekDayOf(day) in s.dayOfWeek;
    && MonthOf(day) + 1 in s.month
    && (if s.dayOfMonthRestricted && s.dayOfWeekRestricted then dom || dow
        else if s.dayOfMonthRestricted then dom
        else if s.dayOfWeekRestricted then dow
        else true)
  }

  predicate Matches(s: Schedule, t: int) {
    Minutes(t) in s.minute && Hours(t) in s.hour && DayMatches(s, Day(t))
  }

  /** The schedule matches whole minute number `m`. */
  predicate Due(s: Schedule, m: int) {
    Matches(s, m * 60_000)
  }

  /** The first match among `left` whole minutes from minute `m` on. */
  function Search(s: Schedule, m: int, left: nat): Option<int>
    decreases left
  {
    if left == 0 then None
    else if Due(s, m) then Some(m * 60_000)
    else Search(s, m + 1, left - 1)
  }

  /** The minute after the one `from` falls into. */
  function FirstMinute(from: int): int {
    from / 60_000 + 1
  }

  /** The search looks at the minutes of 366 days. */
  function NextRun(s: Schedule, from: int): Option<int> {
    Search(s, FirstMinute(from), 527_040)
  }

  /** calculateNextRunFromCron on a parsed schedule. */
  method FindNextRun(s: Schedule, from: int) returns (r: Option<int>)
    ensures r == NextRun(s, from)
  {
    var candidate := from - from % 60_000;
    candidate := candidate + 60_000;
    var index := 0;
    while index < 366 * 24 * 60
      invariant 0 <= index <= 527_040
      invariant candidate == (FirstMinute(from) + index) * 60_000
      invariant NextRun(s, from) == Search(s, FirstMinute(from) + index, 527_040 - index)
    {
      if Matches(s, candidate) {
        return Some(candidate);
      }
      candidate := candidate + 60_000;
      index := index + 1;
    }
    r := None;
  }

  // ---------------------------------------------------------------- the search finds the least match

  lemma {:induction false} SearchIsLeast(s: Schedule, m: int, left: nat, k: int)
    ensures Search(s, m, left) == Some(k * 60_000) <==>
            m <= k < m + left && Due(s, k) && forall j :: m <= j < k ==> !Due(s, j)
    decreases left
  {
    hide Due;
    if left != 0 && !Due(s, m) {
      SearchIsLeast(s, m + 1, left - 1, k);
    }
  }

  lemma {:induction false} SearchFails(s: Schedule, m: int, left: nat)
    ensures Search(s, m, left).None? <==> forall j :: m <= j < m + left ==> !Due(s, j)
    decreases left
  {
    hide Due;
    if left == 0 {
    } else if Due(s, m) {
      assert m <= m < m + left;
    } else {
      SearchFails(s, m + 1, left - 1);
    }
  }

  /** `FirstMinute` is the first whole minute later than `from`. */
  lemma LaterThan(from: int, k: int)
    ensures FirstMinute(from) <= k <==> from < k * 60_000
  {
  }

  /** The next run is the least whole minute later than `from` that matches and is inside the window. */
  lemma NextRunIsLeast(s: Schedule, from: int, k: int)
    ensures NextRun(s, from) == Some(k * 60_000) <==>
            && from < k * 60_000 && k < FirstMinute(from) + 527_040 && Due(s, k)
            && forall j :: FirstMinute(from) <= j < k ==> !Due(s, j)
  {
    LaterThan(from, k);
    SearchIsLeast(s, FirstMinute(from), 527_040, k);
  }

  /** The search throws exactly when no minute of the window matches. */
  lemma NoNextRunIff(s: Schedule, from: int)
    ensures NextRun(s, from).None? <==>
            forall m :: FirstMinute(from) <= m < FirstMinute(from) + 527_040 ==> !Due(s, m)
  {
    SearchFails(s, FirstMinute(from), 527_040);
  }

  // ---------------------------------------------------------------- which schedules always have a next run

  /** Days of the month in a common year; `m` runs from 1 to 12 here. */
  function CommonLength(m: int): int
    requires 1 <= m <= 12
  {
    DaysBefore(m) - DaysBefore(m - 1)
  }

  /** A weekday is named, or a day of the month that one of the months has every year. */
  ghost predicate AlwaysDue(s: Schedule) {
    s.dayOfWeekRestricted
    || exists m, d :: 1 <= m <= 12 && m in s.month && d in s.dayOfMonth && d <= CommonLength(m)
  }

  lemma MinuteParts(day: int, h: int, mi: int)
    requires 0 <= h < 24 && 0 <= mi < 60
    ensures var t := (day * 1440 + h * 60 + mi) * 60_000; Day(t) == day && Hours(t) == h && Minutes(t) == mi
  {
    var t := (day * 1440 + h * 60 + mi) * 60_000;
    assert t / 60_000 == day * 1440 + h * 60 + mi;
    assert t == (day * 24 + h) * 3_600_000 + mi * 60_000;
    assert t / 3_600_000 == day * 24 + h;
    assert t == day * 86_400_000 + h * 3_600_000 + mi * 60_000;
  }

  /** A date that every year has comes within any 366 days. */
  lemma DateRecurs(from: int, m: int, date: int) returns (y: int)
    requires 1 <= m <= 12 && 1 <= date <= CommonLength(m)
    ensures IsDate(y, m - 1, date) && from <= MakeDay(y, m - 1, date) <= from + 365
  {
    hide MakeDay, MonthOf, DateOf, IsDate, DayFromYear, CommonLength;
    y := YearOf(from);
    AnniversaryGap(y, m - 1, date);
    WithinItsYear(y, m - 1, date);
    WithinItsYear(y + 1, m - 1, date);
    YearIsShort(y);
    if MakeDay(y, m - 1, date) < from {
      y := y + 1;
    }
  }

  lemma WithinItsYear(y: int, m: int, date: int)
    requires IsDate(y, m, date)
    ensures DayFromYear(y) <= MakeDay(y, m, date) < DayFromYear(y + 1)
  {
    PartsOfDate(y, m, date);
  }

  lemma YearIsShort(y: int)
    ensures DayFromYear(y + 1) <= DayFromYear(y) + 366
  {
    YearLength(y);
  }

  lemma AnniversaryGap(y: int, m: int, date: int)
    requires 0 <= m < 12 && 1 <= date <= CommonLength(m + 1)
    ensures IsDate(y, m, date) && IsDate(y + 1, m, date)
    ensures MakeDay(y, m, date) + 365 <= MakeDay(y + 1, m, date) <= MakeDay(y, m, date) + 366
  {
    MakeDayInYear(y, m, date);
    MakeDayInYear(y + 1, m, date);
    YearLength(y);
    NoTwoLeaps(y);
  }

  lemma NoTwoLeaps(y: int)
    ensures !(IsLeap(y) && IsLeap(y + 1))
  {
  }

  lemma ShiftWeekDay(day: int, w: int) returns (offset: int)
    requires 0 <= w < 7
    ensures 0 <= offset < 7 && WeekDayOf(day + offset) == w
  {
    offset := if w >= WeekDayOf(day) then w - WeekDayOf(day) else w - WeekDayOf(day) + 7;
  }

  lemma DaysOfMonth(y: int, m: int, offset: int)
    requires 1 <= m <= 12 && 0 <= offset < 28
    ensures var day := MakeDay(y, m - 1, 1) + offset; MonthOf(day) + 1 == m && DateOf(day) == 1 + offset
  {
    MonthsGrow(IsLeap(y), m - 1, m);
    PartsOfDate(y, m - 1, 1 + offset);
  }

  /** The first day of a month plus less than two weeks, with the weekday `w`. */
  lemma WeekDayInMonth(y: int, m: int, w: int, a: int, weeks: int) returns (day: int)
    requires 1 <= m <= 12 && 0 <= w < 7 && a == MakeDay(y, m - 1, 1) && 0 <= weeks <= 1
    ensures a + 7 * weeks <= day <= a + 7 * weeks + 6
    ensures MonthOf(day) + 1 == m && WeekDayOf(day) == w
  {
    var offset := ShiftWeekDay(a + 7 * weeks, w);
    DaysOfMonth(y, m, 7 * weeks + offset);
    day := a + 7 * weeks + offset;
  }

  /** Each weekday falls into each month within the next 365 days. */
  lemma WeekDayRecurs(from: int, m: int, w: int) returns (day: int)
    requires 1 <= m <= 12 && 0 <= w < 7
    ensures from < day <= from + 365
    ensures MonthOf(day) + 1 == m && WeekDayOf(day) == w
  {
    hide MakeDay, MonthOf, WeekDayOf;
    var y := DateRecurs(from + 1, m, 1);
    var a := MakeDay(y, m - 1, 1);
    if a + 6 <= from + 365 {
      day := WeekDayInMonth(y, m, w, a, 0);
    } else {
      // The month that starts too late also came a year ago, and its second week is still ahead.
      AnniversaryGap(y - 1, m - 1, 1);
      day := WeekDayInMonth(y - 1, m, w, MakeDay(y - 1, m - 1, 1), 1);
    }
  }

  lemma Member<T>(values: set<T>) returns (v: T)
    requires values != {}
    ensures v in values
  {
    v :| v in values;
  }

  lemma FoundAt(s: Schedule, from: int, day: int, h: int, mi: int, k: int)
    requires WellFormed(s) && DayMatches(s, day) && h in s.hour && mi in s.minute
    requires k == day * 1440 + h * 60 + mi && FirstMinute(from) <= k < FirstMinute(from) + 527_040
    ensures NextRun(s, from).Some?
  {
    MinuteParts(day, h, mi);
    assert Due(s, k);
    NoNextRunIff(s, from);
  }

  lemma InWindow(first: int, day: int, h: int, mi: int)
    requires first / 1440 < day <= first / 1440 + 365 && 0 <= h < 24 && 0 <= mi < 60
    ensures first <= day * 1440 + h * 60 + mi < first + 527_040
  {
  }

  /** A matching day later than the first one is inside the window with all its minutes. */
  lemma LaterDayIsFound(s: Schedule, from: int, day: int)
    requires WellFormed(s) && DayMatches(s, day)
    requires FirstMinute(from) / 1440 < day <= FirstMinute(from) / 1440 + 365
    ensures NextRun(s, from).Some?
  {
    var h := Member(s.hour);
    var mi := Member(s.minute);
    InWindow(FirstMinute(from), day, h, mi);
    FoundAt(s, from, day, h, mi, day * 1440 + h * 60 + mi);
  }

  lemma OnDate(y: int, m: int, date: int, day: int)
    requires IsDate(y, m - 1, date) && day == MakeDay(y, m - 1, date)
    ensures MonthOf(day) + 1 == m && DateOf(day) == date
  {
    PartsOfDate(y, m - 1, date);
  }

  lemma NextYear(y: int, m: int, date: int, a: int) returns (b: int)
    requires 1 <= m <= 12 && 1 <= date <= CommonLength(m) && a == MakeDay(y, m - 1, date)
    ensures a + 365 <= b <= a + 366
    ensures MonthOf(a) + 1 == m && DateOf(a) == date && MonthOf(b) + 1 == m && DateOf(b) == date
  {
    b := MakeDay(y + 1, m - 1, date);
    AnniversaryGap(y, m - 1, date);
    OnDate(y, m, date, a);
    OnDate(y + 1, m, date, b);
  }

  /** The next two occurrences of a date that comes every year. */
  lemma NextTwoDates(from: int, m: int, date: int) returns (a: int, b: int)
    requires 1 <= m <= 12 && 1 <= date <= CommonLength(m)
    ensures from <= a <= from + 365 && a + 365 <= b <= a + 366
    ensures MonthOf(a) + 1 == m && DateOf(a) == date && MonthOf(b) + 1 == m && DateOf(b) == date
  {
    var y := DateRecurs(from, m, date);
    a := MakeDay(y, m - 1, date);
    b := NextYear(y, m, date, a);
  }

  /** A date that comes every year comes inside the window, before the start's time of day or after it. */
  lemma DateInWindow(first: int, m: int, date: int, h: int, mi: int) returns (day: int)
    requires 1 <= m <= 12 && 1 <= date <= CommonLength(m) && 0 <= h < 24 && 0 <= mi < 60
    ensures MonthOf(day) + 1 == m && DateOf(day) == date
    ensures first <= day * 1440 + h * 60 + mi < first + 527_040
  {
    var a, b := NextTwoDates(first / 1440, m, date);
    day := OneOfTwo(first, a, b, h, mi);
  }

  lemma OneOfTwo(first: int, a: int, b: int, h: int, mi: int) returns (day: int)
    requires first / 1440 <= a <= first / 1440 + 365 && a + 365 <= b <= a + 366
    requires 0 <= h < 24 && 0 <= mi < 60
    ensures day == a || day == b
    ensures first <= day * 1440 + h * 60 + mi < first + 527_040
  {
    day := if first <= a * 1440 + h * 60 + mi then a else b;
  }

  lemma DateIsFound(s: Schedule, from: int, m: int, date: int)
    requires WellFormed(s) && 1 <= m <= 12 && 1 <= date <= CommonLength(m)
    requires m in s.month && date in s.dayOfMonth && !s.dayOfWeekRestricted
    ensures NextRun(s, from).Some?
  {
    var h := Member(s.hour);
    var mi := Member(s.minute);
    var day := DateInWindow(FirstMinute(from), m, date, h, mi);
    FoundAt(s, from, day, h, mi, day * 1440 + h * 60 + mi);
  }

  lemma AlwaysDueIsFound(s: Schedule, from: int)
    requires WellFormed(s) && AlwaysDue(s)
    ensures NextRun(s, from).Some?
  {
    hide NextRun, FirstMinute, MakeDay, MonthOf, DateOf, WeekDayOf, CommonLength;
    if s.dayOfWeekRestricted {
      var m := Member(s.month);
      var w := Member(s.dayOfWeek);
      var day := WeekDayRecurs(FirstMinute(from) / 1440, m, w);
      LaterDayIsFound(s, from, day);
    } else {
      var m, d :| 1 <= m <= 12 && m in s.month && d in s.dayOfMonth && d <= CommonLength(m);
      DateIsFound(s, from, m, d);
    }
  }

  /** Every day of the 366 from 2001-01-01 on belongs to a common year. */
  lemma CommonYears(day: int)
    requires DayFromYear(2001) <= day <= DayFromYear(2001) + 366
    ensures !IsLeap(YearOf(day))
  {
    assert DayFromYear(2002) == DayFromYear(2001) + 365 && DayFromYear(2003) == DayFromYear(2001) + 730;
    YearIs(day, if day < DayFromYear(2002) then 2001 else 2002);
  }

  lemma CommonDayDiffers(s: Schedule, day: int)
    requires WellFormed(s) && !AlwaysDue(s) && !IsLeap(YearOf(day))
    ensures !DayMatches(s, day)
  {
    hide YearOf, MonthOf, DateOf, MakeDay;
    PartsOf(day);
    var m, d := MonthOf(day) + 1, DateOf(day);
    assert d <= CommonLength(m);
    assert 1 <= CommonLength(m);
    if !s.dayOfMonthRestricted {
      assert 1 in s.dayOfMonth;
    }
  }

  lemma DayOfMinute(m: int)
    ensures Day(m * 60_000) == m / 1440
  {
  }

  lemma NotDueIsNotFound(s: Schedule)
    requires WellFormed(s) && !AlwaysDue(s)
    ensures NextRun(s, DayFromYear(2001) * 86_400_000).None?
  {
    var start := DayFromYear(2001);
    assert FirstMinute(start * 86_400_000) == start * 1440 + 1;
    forall m | start * 1440 + 1 <= m < start * 1440 + 1 + 527_040 ensures !Due(s, m) {
      DayOfMinute(m);
      CommonYears(m / 1440);
      CommonDayDiffers(s, m / 1440);
    }
    NoNextRunIff(s, start * 86_400_000);
  }

  /**
   The search finds a next run from every start instant exactly when the schedule names a
   weekday or a date that every year has: the rest asks for 29 February or for no date at all.
   */
  lemma NeverThrowsIff(s: Schedule)
    requires WellFormed(s)
    ensures (forall from :: NextRun(s, from).Some?) <==> AlwaysDue(s)
  {
    if AlwaysDue(s) {
      forall from ensures NextRun(s, from).Some? {
        AlwaysDueIsFound(s, from);
      }
    } else {
      NotDueIsNotFound(s);
      assert NextRun(s, DayFromYear(2001) * 86_400_000).None?;
    }
  }
}
