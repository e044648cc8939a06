/** Report frequencies: their cron expressions, the next run computed directly, and the way back. */
module Frequency {
  import opened Options
  import opened Calendar
  import opened MonthNumbers
  import opened Text
  import opened Cron
  import opened CronSyntax
  import opened CronText

  datatype Frequency = Daily | Weekly | Monthly | Quarterly | Custom

  datatype Failure = Refused(error: Error) | NoRun

  // ---------------------------------------------------------------- the cron expression of a frequency

  /** getCronForFrequency; a missing custom expression is the empty string. */
  function CronFor(f: Frequency, expression: string): Result<string, Error> {
    match f
    case Daily => Ok("0 0 * * *")
    case Weekly => Ok("0 0 * * 0")
    case Monthly => Ok("0 0 1 * *")
    case Quarterly => Ok("0 0 1 1,4,7,10 *")
    case Custom =>
      if Trim(expression) == "" then Err(EmptyExpression)
      else
        var s :- Parse(expression);
        Ok(Trim(expression))
  }

  function Full(min: int, max: int): set<int> {
    Members(Range(min, max, 1))
  }

  function Quarters(): set<int> {
    {1, 4, 7, 10}
  }

  /** The schedule a frequency stands for. */
  function Canonical(f: Frequency): Schedule
    requires !f.Custom?
  {
    Schedule({0}, {0},
             if f.Daily? || f.Weekly? then Full(1, 31) else {1},
             if f.Quarterly? then Quarters() else Full(1, 12),
             if f.Weekly? then {0} else Full(0, 6),
             f.Monthly? || f.Quarterly?, f.Weekly?)
  }

  function Star(): seq<Item> {
    [Item(All, None)]
  }

  function Only(n: nat): seq<Item> {
    [Item(One(n), None)]
  }

  lemma DenotesOnly(values: set<int>, n: nat, min: int, max: int)
    requires min <= n <= max && Denotes(values, Only(n), min, max)
    ensures values == {n}
  {
    assert Selects(Only(n)[0], min, max, n);
    forall v ensures v in values <==> v == n {
      assert Selects(Only(n)[0], min, max, v) <==> v == n;
    }
  }

  lemma DenotesAll(values: set<int>, min: int, max: int)
    requires min <= max && Denotes(values, Star(), min, max)
    ensures values == Full(min, max)
  {
    forall v ensures v in values <==> min <= v <= max {
      assert Selects(Star()[0], min, max, v) <==> min <= v <= max;
    }
  }

  function QuarterItems(): seq<Item> {
    [Item(One(1), None), Item(One(4), None), Item(One(7), None), Item(One(10), None)]
  }

  lemma DenotesQuarters(values: set<int>)
    requires Denotes(values, QuarterItems(), 1, 12)
    ensures values == Quarters()
  {
    var items := QuarterItems();
    forall v ensures v in values <==> v == 1 || v == 4 || v == 7 || v == 10 {
      assert Selects(items[0], 1, 12, v) <==> v == 1;
      assert Selects(items[1], 1, 12, v) <==> v == 4;
      assert Selects(items[2], 1, 12, v) <==> v == 7;
      assert Selects(items[3], 1, 12, v) <==> v == 10;
    }
  }

  function Written(f: Frequency): Expression
    requires !f.Custom?
  {
    Expression(Only(0), Only(0), if f.Daily? || f.Weekly? then Star() else Only(1),
               if f.Quarterly? then QuarterItems() else Star(), if f.Weekly? then Only(0) else Star())
  }

  lemma WritesCron(f: Frequency)
    requires !f.Custom?
    ensures CronFor(f, "") == Ok(Write(Written(f)))
  {
    hide WriteField, Join;
    var e := Written(f);
    WriteSimple();
    WriteQuarters();
    JoinFive("0", "0", WriteField(e.dayOfMonth), WriteField(e.month), WriteField(e.dayOfWeek));
    assert CronFor(f, "").value == "0" + " " + "0" + " " + WriteField(e.dayOfMonth) + " " + WriteField(e.month) + " "
                                   + WriteField(e.dayOfWeek);
  }

  lemma WriteSimple()
    ensures WriteField(Star()) == "*" && WriteField(Only(0)) == "0" && WriteField(Only(1)) == "1"
  {
    assert WriteItem(Item(All, None)) == "*";
    assert WriteItems(Star()) == ["*"];
    WriteDigit(0, '0');
    WriteDigit(1, '1');
    assert WriteItems(Only(0)) == ["0"] && WriteItems(Only(1)) == ["1"];
  }

  lemma WriteDigit(n: nat, c: char)
    requires n < 10 && c as int == '0' as int + n
    ensures Decimal(n) == [c] && WriteItem(Item(One(n), None)) == [c]
  {
    assert Digit(n) == c;
    assert Decimal(n) + "" == [c];
  }

  lemma WriteQuarters()
    ensures WriteField(QuarterItems()) == "1,4,7,10"
  {
    var items := QuarterItems();
    WriteDigit(0, '0');
    WriteDigit(1, '1');
    WriteDigit(4, '4');
    WriteDigit(7, '7');
    assert Decimal(10) == Decimal(1) + Decimal(0) == "10";
    assert WriteItem(items[3]) == Decimal(10) + "" == "10";
    assert WriteItems(items) == ["1", "4", "7", "10"];
    var parts := ["1", "4", "7", "10"];
    assert parts[1..] == ["4", "7", "10"] && parts[1..][1..] == ["7", "10"] && parts[1..][1..][1..] == ["10"];
    assert Join(["7", "10"], ",") == "7,10";
    assert Join(["4", "7", "10"], ",") == "4,7,10";
  }

  lemma JoinFive(a: string, b: string, c: string, d: string, e: string)
    ensures Join([a, b, c, d, e], " ") == a + " " + b + " " + c + " " + d + " " + e
  {
    assert [a, b, c, d, e][1..] == [b, c, d, e] && [b, c, d, e][1..] == [c, d, e];
    assert [c, d, e][1..] == [d, e] && [d, e][1..] == [e];
    assert Join([d, e], " ") == d + " " + e;
    assert Join([c, d, e], " ") == c + " " + d + " " + e;
    assert Join([b, c, d, e], " ") == b + " " + c + " " + d + " " + e;
  }

  lemma WrittenIsReadable(f: Frequency)
    requires !f.Custom?
    ensures NoEmptyField(Written(f)) && AllReadable(Written(f))
  {
  }

  lemma DayAndMonth(f: Frequency, s: Schedule)
    requires !f.Custom? && AllReadable(Written(f)) && Means(s, Written(f))
    ensures s.dayOfMonth == Canonical(f).dayOfMonth && s.month == Canonical(f).month
  {
    hide Denotes;
    if f.Daily? || f.Weekly? {
      DenotesAll(s.dayOfMonth, 1, 31);
    } else {
      DenotesOnly(s.dayOfMonth, 1, 1, 31);
    }
    if f.Quarterly? {
      DenotesQuarters(s.month);
    } else {
      DenotesAll(s.month, 1, 12);
    }
  }

  lemma TimeAndWeekDay(f: Frequency, s: Schedule)
    requires !f.Custom? && AllReadable(Written(f)) && Means(s, Written(f))
    ensures s.minute == {0} && s.hour == {0} && s.dayOfWeek == Canonical(f).dayOfWeek
  {
    hide Denotes;
    DenotesOnly(s.minute, 0, 0, 59);
    DenotesOnly(s.hour, 0, 0, 23);
    var days :| Denotes(days, Written(f).dayOfWeek, 0, 7) && s.dayOfWeek == SundayIsZero(days);
    if f.Weekly? {
      DenotesOnly(days, 0, 0, 7);
    } else {
      DenotesAll(days, 0, 7);
      assert SundayIsZero(Full(0, 7)) == Full(0, 6);
    }
  }

  /** The expression of a frequency is read as the schedule the frequency stands for. */
  lemma CronIsCanonical(f: Frequency)
    requires !f.Custom?
    ensures Parse(CronFor(f, "").value) == Ok(Canonical(f))
  {
    hide Parse, Denotes, Write;
    WritesCron(f);
    WrittenIsReadable(f);
    ReadsWritten(Written(f));
    var s := Parse(Write(Written(f))).value;
    DayAndMonth(f, s);
    TimeAndWeekDay(f, s);
    assert s == Canonical(f);
  }

  // ---------------------------------------------------------------- the way back

  /** setsEqual: the same size, and every value of one is in the other. */
  predicate SetsEqual<T>(left: set<T>, right: set<T>)
    ensures SetsEqual(left, right) <==> left == right
  {
    SubsetOfSameSize(left, right);
    |left| == |right| && forall v :: v in left ==> v in right
  }

  lemma SubsetOfSameSize<T>(left: set<T>, right: set<T>)
    ensures left <= right && |left| == |right| ==> left == right
  {
    if left <= right {
      assert right == left + (right - left);
      assert |right| == |left| + |right - left|;
    }
  }

  predicate SameSets(s: Schedule, c: Schedule) {
    SetsEqual(s.minute, c.minute) && SetsEqual(s.hour, c.hour) && SetsEqual(s.dayOfMonth, c.dayOfMonth)
    && SetsEqual(s.month, c.month) && SetsEqual(s.dayOfWeek, c.dayOfWeek)
  }

  /** getFrequencyFromCron. */
  function FrequencyOf(expression: string): Frequency {
    if Trim(expression) == "" then Custom
    else
      match Parse(expression)
      case Err(_) => Custom
      case Ok(s) =>
        if SameSets(s, Canonical(Daily)) then Daily
        else if SameSets(s, Canonical(Weekly)) then Weekly
        else if SameSets(s, Canonical(Monthly)) then Monthly
        else if SameSets(s, Canonical(Quarterly)) then Quarterly
        else Custom
  }

  /** A frequency is recovered from its expression. */
  lemma FrequencyRoundTrip(f: Frequency)
    requires !f.Custom?
    ensures FrequencyOf(CronFor(f, "").value) == f
  {
    hide Parse, SetsEqual;
    CronIsCanonical(f);
    ParseNeedsText(CronFor(f, "").value);
    DifferentSets();
  }

  lemma ParseNeedsText(expression: string)
    ensures Parse(expression).Ok? ==> Trim(expression) != ""
  {
  }

  lemma DifferentSets()
    ensures Full(0, 6) != {0} && Full(1, 31) != {1} && Full(1, 12) != Quarters()
  {
    assert 1 in Full(0, 6) && 2 in Full(1, 31) && 2 in Full(1, 12);
  }

  /** The two schedules match the same instants. */
  ghost predicate SameRuns(s: Schedule, c: Schedule) {
    forall t :: Matches(s, t) <==> Matches(c, t)
  }

  /**
   A classified expression runs when its frequency runs, except when both of its day fields are
   restricted by spelling a full range out: then either field is enough and it runs every day.
   */
  lemma ClassifiedRunsIff(expression: string, f: Frequency)
    requires !f.Custom? && FrequencyOf(expression) == f
    ensures SameRuns(Parse(expression).value, Canonical(f)) <==>
            var s := Parse(expression).value; f.Daily? || !s.dayOfMonthRestricted || !s.dayOfWeekRestricted
  {
    hide Parse, DayMatches, Full, SetsEqual;
    var s := Parse(expression).value;
    ParsedIsWellFormed(expression);
    FlagsFollowSets(s, f);
    if f.Daily? || !s.dayOfMonthRestricted || !s.dayOfWeekRestricted {
      forall t ensures Matches(s, t) <==> Matches(Canonical(f), t) {
        SameDay(s, f, Day(t));
      }
    } else {
      ExtraDay(s, f);
      MinuteParts(1, 0, 0);
      assert Matches(s, 86_400_000) && !Matches(Canonical(f), 86_400_000);
    }
  }

  lemma FlagsFollowSets(s: Schedule, f: Frequency)
    requires !f.Custom? && WellFormed(s) && SameSets(s, Canonical(f))
    ensures f.Weekly? ==> s.dayOfWeekRestricted
    ensures f.Monthly? || f.Quarterly? ==> s.dayOfMonthRestricted
  {
    assert f.Weekly? ==> 1 !in s.dayOfWeek;
    assert f.Monthly? || f.Quarterly? ==> 2 !in s.dayOfMonth;
  }

  lemma InFull(day: int)
    ensures DateOf(day) in Full(1, 31) && MonthOf(day) + 1 in Full(1, 12) && WeekDayOf(day) in Full(0, 6)
  {
    InMonth(day, MonthNo(day));
    LengthBound(MonthNo(day));
  }

  lemma SameDay(s: Schedule, f: Frequency, day: int)
    requires !f.Custom? && SameSets(s, Canonical(f))
    requires f.Weekly? ==> s.dayOfWeekRestricted
    requires f.Monthly? || f.Quarterly? ==> s.dayOfMonthRestricted
    requires f.Daily? || !s.dayOfMonthRestricted || !s.dayOfWeekRestricted
    ensures DayMatches(s, day) <==> DayMatches(Canonical(f), day)
  {
    hide Full, DateOf, MonthOf, WeekDayOf, SetsEqual;
    InFull(day);
  }

  lemma SecondOfJanuary()
    ensures DateOf(1) == 2 && MonthOf(1) == 0 && WeekDayOf(1) == 5
  {
    hide YearOf, MonthOf, DateOf;
    MakeDayInYear(1970, 0, 2);
    PartsOfDate(1970, 0, 2);
  }

  lemma ExtraDay(s: Schedule, f: Frequency)
    requires !f.Custom? && !f.Daily? && SameSets(s, Canonical(f)) && s.dayOfMonthRestricted && s.dayOfWeekRestricted
    ensures DayMatches(s, 1) && !DayMatches(Canonical(f), 1)
  {
    hide Full, DateOf, MonthOf, WeekDayOf, SetsEqual;
    InFull(1);
    SecondOfJanuary();
  }

  // ---------------------------------------------------------------- the next run computed directly

  /** The month whose first day the search looks for. */
  function TargetMonth(f: Frequency, from: int): int {
    var q := MonthNo(Day(from));
    if f.Quarterly? then (q / 3 + 1) * 3 else q + 1
  }

  /**
   What the direct computation yields. Carrying the day of the month into a month that is too
   short for it spills over, and the run lands one month late.
   */
  function ClosedForm(f: Frequency, from: int): int
    requires !f.Custom?
  {
    var day := Day(from);
    var q := TargetMonth(f, from);
    86_400_000 * (match f
                  case Daily => day + 1
                  case Weekly => day + 7 - WeekDayOf(day)
                  case _ => First(if DateOf(day) <= Length(q) then q else q + 1))
  }

  function CustomRun(expression: string, from: int): Result<int, Failure> {
    match Parse(expression)
    case Err(e) => Err(Refused(e))
    case Ok(s) =>
      match NextRun(s, from)
      case None => Err(NoRun)
      case Some(t) => Ok(t)
  }

  /** calculateNextRun; a missing custom expression is the empty string. */
  method CalculateNextRun(f: Frequency, expression: string, from: int) returns (r: Result<int, Failure>)
    ensures r == if f.Custom? then CustomRun(expression, from) else Ok(ClosedForm(f, from))
  {
    hide First, Length, SetDate, SetMonth, SetMidnight, YearOf, MonthOf, DateOf, Parse, NextRun;
    var next := from;
    match f {
      case Custom =>
        var schedule := ParseCronExpression(expression);
        if schedule.Err? {
          return Err(Refused(schedule.error));
        }
        var run := FindNextRun(schedule.value, from);
        return if run.Some? then Ok(run.value) else Err(NoRun);
      case Daily =>
        MovedDays(next, 1);
        next := SetDate(next, DateOf(Day(next)) + 1);
        next := SetMidnight(next);
      case Weekly =>
        var advance := 7 - WeekDayOf(Day(next));
        var days := if advance == 7 then 7 else if advance == 0 then 7 else advance;
        MovedDays(next, days);
        next := SetDate(next, DateOf(Day(next)) + days);
        next := SetMidnight(next);
      case Monthly =>
        CarriedDate(next, MonthOf(Day(next)) + 1);
        next := SetMonth(next, MonthOf(Day(next)) + 1);
        next := SetDate(next, 1);
        next := SetMidnight(next);
      case Quarterly =>
        var nextQuarterMonth := (MonthOf(Day(next)) / 3 + 1) * 3;
        SameQuarter(YearOf(Day(next)), MonthOf(Day(next)));
        CarriedDate(next, nextQuarterMonth);
        next := SetMonth(next, nextQuarterMonth);
        next := SetDate(next, 1);
        next := SetMidnight(next);
    }
    r := Ok(next);
  }

  lemma MovedDays(t: int, n: int)
    ensures SetMidnight(SetDate(t, DateOf(Day(t)) + n)) == 86_400_000 * (Day(t) + n)
  {
    SetDateMoves(t, DateOf(Day(t)) + n);
  }

  lemma SameQuarter(y: int, m: int)
    ensures 12 * y + (m / 3 + 1) * 3 == ((12 * y + m) / 3 + 1) * 3
  {
  }

  /** Setting the month and then the date to 1 yields the first day of the month the date was carried into. */
  lemma CarriedDate(t: int, m: int)
    ensures var q := 12 * YearOf(Day(t)) + m;
            SetMidnight(SetDate(SetMonth(t, m), 1)) ==
            86_400_000 * First(if DateOf(Day(t)) <= Length(q) then q else q + 1)
  {
    hide First, Length, MonthNo, MakeDay, YearOf, MonthOf, DateOf, TimeInDay;
    var q, date := 12 * YearOf(Day(t)) + m, DateOf(Day(t));
    var moved := First(q) + date - 1;
    MakeDayCounts(YearOf(Day(t)), m, date);
    DayOfSet(moved, t);
    InMonth(Day(t), MonthNo(Day(t)));
    LengthBound(MonthNo(Day(t)));
    Spill(q, date);
    MakeDayCounts(YearOf(moved), MonthOf(moved), 1);
    MonthNoOf(moved);
    DayOfSet(First(MonthNo(moved)), SetMonth(t, m));
  }

  lemma MonthNoOf(d: int)
    ensures MonthNo(d) == 12 * YearOf(d) + MonthOf(d)
  {
  }

  // ---------------------------------------------------------------- it agrees with the search

  lemma MinuteNumber(m: int)
    ensures Minutes(m * 60_000) == m % 60 && Hours(m * 60_000) == m / 60 % 24 && Day(m * 60_000) == m / 1440
    ensures m % 60 == 0 && m / 60 % 24 == 0 <==> m == 1440 * (m / 1440)
  {
  }

  lemma Midnights(from: int, j: int, day: int)
    requires FirstMinute(from) <= j < day * 1440 && j == 1440 * (j / 1440)
    ensures Day(from) < j / 1440 < day
  {
  }

  lemma MidnightInWindow(from: int, day: int)
    requires Day(from) < day <= Day(from) + 366
    ensures from < day * 1440 * 60_000 && day * 1440 < FirstMinute(from) + 527_040
  {
  }

  /** A schedule at midnight runs next on the first matching day after the start's day. */
  lemma MidnightRun(s: Schedule, from: int, day: int)
    requires s.minute == {0} && s.hour == {0} && DayMatches(s, day) && Day(from) < day <= Day(from) + 366
    requires forall d :: Day(from) < d < day ==> !DayMatches(s, d)
    ensures NextRun(s, from) == Some(86_400_000 * day)
  {
    hide DayMatches, NextRun;
    var k := day * 1440;
    MinuteNumber(k);
    assert Due(s, k);
    forall j | FirstMinute(from) <= j < k ensures !Due(s, j) {
      MinuteNumber(j);
      if j == 1440 * (j / 1440) {
        Midnights(from, j, day);
      }
    }
    MidnightInWindow(from, day);
    NextRunIsLeast(s, from, k);
  }

  /** The day a frequency runs next. */
  function TargetDay(f: Frequency, from: int): int
    requires !f.Custom?
  {
    match f
    case Daily => Day(from) + 1
    case Weekly => Day(from) + 7 - WeekDayOf(Day(from))
    case _ => First(TargetMonth(f, from))
  }

  lemma TargetMonthFollows(f: Frequency, q: int)
    ensures var target := if f.Quarterly? then (q / 3 + 1) * 3 else q + 1;
            q < target <= q + 3 && (f.Quarterly? ==> target % 3 == 0)
  {
  }

  /** Days between the start's day and the target month's first one are no first days of a month that counts. */
  lemma NoFirstBetween(f: Frequency, from: int, d: int)
    requires (f.Monthly? || f.Quarterly?) && Day(from) < d < First(TargetMonth(f, from))
    ensures DateOf(d) != 1 || (f.Quarterly? && MonthOf(d) % 3 != 0)
  {
    hide First, Length, MonthNo, MonthOf, DateOf, Day, TargetMonth;
    var q, p, target := MonthNo(Day(from)), MonthNo(d), TargetMonth(f, from);
    InMonth(Day(from), q);
    InMonth(d, p);
    MonthsOrder(Day(from), q, d, p);
    MonthBeforeFirst(d, p, target);
    if q < p {
      LaterInQuarter(f, from, p);
      MonthInQuarter(p);
    }
  }

  lemma MonthsOrder(d: int, q: int, d': int, p: int)
    requires d <= d' && First(q) <= d && d' < First(p) + Length(p)
    ensures q <= p
  {
    hide First, Length;
    if p < q {
      FirstsGrow(p + 1, q);
      NextFirst(p);
    }
  }

  lemma MonthBeforeFirst(d: int, p: int, target: int)
    requires First(p) <= d < First(target)
    ensures p < target
  {
    hide First;
    if target <= p {
      FirstsGrow(target, p);
    }
  }

  lemma LaterInQuarter(f: Frequency, from: int, p: int)
    requires (f.Monthly? || f.Quarterly?) && MonthNo(Day(from)) < p < TargetMonth(f, from)
    ensures f.Quarterly? && p % 3 != 0
  {
    hide MonthNo, Day;
  }

  lemma MonthInQuarter(p: int)
    ensures p % 12 % 3 == p % 3
  {
  }

  lemma FirstDay(q: int)
    ensures DateOf(First(q)) == 1 && MonthOf(First(q)) == q % 12
  {
    hide First, Length, MonthNo, MonthOf, DateOf;
    LengthBound(q);
    NextFirst(q);
    MonthNoIs(First(q), q);
    InMonth(First(q), q);
  }

  /** Which days a frequency's schedule matches. */
  lemma CanonicalDays(f: Frequency, day: int)
    requires !f.Custom?
    ensures DayMatches(Canonical(f), day) <==>
            if f.Daily? then true
            else if f.Weekly? then WeekDayOf(day) == 0
            else DateOf(day) == 1 && (f.Quarterly? ==> MonthOf(day) % 3 == 0)
  {
    hide Full, MonthOf, DateOf, WeekDayOf;
    InFull(day);
    QuarterMonths(MonthOf(day));
  }

  lemma QuarterMonths(m: int)
    requires 0 <= m < 12
    ensures m + 1 in Quarters() <==> m % 3 == 0
  {
  }

  lemma SearchFindsTarget(f: Frequency, from: int)
    requires !f.Custom?
    ensures NextRun(Canonical(f), from) == Some(86_400_000 * TargetDay(f, from))
  {
    hide First, DayMatches, MonthOf, DateOf, NextRun, MonthNo, Day;
    var day := TargetDay(f, from);
    TargetIsNear(f, from);
    CanonicalDays(f, day);
    if f.Monthly? || f.Quarterly? {
      FirstDay(TargetMonth(f, from));
      TargetMonthFollows(f, MonthNo(Day(from)));
      MonthInQuarter(TargetMonth(f, from));
    }
    forall d | Day(from) < d < day ensures !DayMatches(Canonical(f), d) {
      CanonicalDays(f, d);
      if f.Monthly? || f.Quarterly? {
        NoFirstBetween(f, from, d);
      }
    }
    MidnightRun(Canonical(f), from, day);
  }

  lemma TargetIsNear(f: Frequency, from: int)
    requires !f.Custom?
    ensures Day(from) < TargetDay(f, from) <= Day(from) + 366
  {
    hide First, Length, MonthNo, MonthOf, DateOf;
    if f.Monthly? || f.Quarterly? {
      var q := MonthNo(Day(from));
      InMonth(Day(from), q);
      TargetMonthFollows(f, q);
      NextFirst(q);
      FirstsGrow(q + 1, TargetMonth(f, from));
      LengthBound(q);
    }
  }

  /**
   The direct computation agrees with the search for the frequency's own expression from every
   start when the frequency is daily or weekly; otherwise exactly when the start's day of the
   month exists in the target month.
   */
  lemma ClosedFormAgreesIff(f: Frequency, from: int)
    requires !f.Custom?
    ensures CustomRun(CronFor(f, "").value, from) == Ok(ClosedForm(f, from)) <==>
            f.Daily? || f.Weekly? || DateOf(Day(from)) <= Length(TargetMonth(f, from))
  {
    hide First, Length, MonthNo, DateOf, NextRun, Parse;
    CronIsCanonical(f);
    SearchFindsTarget(f, from);
    FirstsGrow(TargetMonth(f, from), TargetMonth(f, from) + 1);
  }

  // ---------------------------------------------------------------- two inputs where they differ

  /** From 31 January 2023 the search finds 1 February, the direct computation 1 March. */
  lemma JanuaryLastSkipsFebruary()
    ensures var from := 86_400_000 * MakeDay(2023, 0, 31);
            && CustomRun(CronFor(Monthly, "").value, from) == Ok(86_400_000 * MakeDay(2023, 1, 1))
            && ClosedForm(Monthly, from) == 86_400_000 * MakeDay(2023, 2, 1)
  {
    hide MakeDay, YearOf, MonthOf, DateOf, NextRun, Parse, First, Length;
    var day := MakeDay(2023, 0, 31);
    MonthLengths(2023, 0);
    PartsOfDate(2023, 0, 31);
    assert Day(86_400_000 * day) == day;
    var q := 12 * 2023;
    assert MonthNo(day) == q;
    MakeDayCounts(2023, 1, 1);
    MakeDayCounts(2023, 2, 1);
    FebruaryIsShort();
    CronIsCanonical(Monthly);
    SearchFindsTarget(Monthly, 86_400_000 * day);
  }

  lemma FebruaryIsShort()
    ensures Length(12 * 2023 + 1) == 28
  {
    MonthLengths(2023, 1);
  }

  function SpelledOut(): Expression {
    Expression(Only(0), Only(0), [Item(FromTo(1, 31), None)], Star(), Only(0))
  }

  lemma WritesSpelledOut()
    ensures Write(SpelledOut()) == "0 0 1-31 * 0"
  {
    hide WriteField, Join;
    WriteSimple();
    WriteRange();
    JoinFive("0", "0", "1-31", "*", "0");
  }

  lemma WriteRange()
    ensures WriteField([Item(FromTo(1, 31), None)]) == "1-31"
  {
    WriteDigit(1, '1');
    WriteDigit(3, '3');
    assert Decimal(31) == Decimal(3) + Decimal(1) == "31";
    var item := Item(FromTo(1, 31), None);
    assert WriteItem(item) == "1-31";
    assert WriteItems([item]) == ["1-31"];
  }

  lemma DenotesRange(values: set<int>)
    requires Denotes(values, [Item(FromTo(1, 31), None)], 1, 31)
    ensures values == Full(1, 31)
  {
    forall v ensures v in values <==> 1 <= v <= 31 {
      assert Selects([Item(FromTo(1, 31), None)][0], 1, 31, v) <==> 1 <= v <= 31;
    }
  }

  /** What the spelled-out expression is read as: every day of the month, restricted, or a Sunday. */
  lemma ReadsSpelledOut()
    ensures Parse("0 0 1-31 * 0") == Ok(Schedule({0}, {0}, Full(1, 31), Full(1, 12), {0}, true, true))
  {
    hide Parse, Denotes, Write;
    var e := SpelledOut();
    WritesSpelledOut();
    SpelledOutIsReadable();
    ReadsWritten(e);
    var s := Parse(Write(e)).value;
    DenotesOnly(s.minute, 0, 0, 59);
    DenotesOnly(s.hour, 0, 0, 23);
    DenotesRange(s.dayOfMonth);
    DenotesAll(s.month, 1, 12);
    var days :| Denotes(days, e.dayOfWeek, 0, 7) && s.dayOfWeek == SundayIsZero(days);
    DenotesOnly(days, 0, 0, 7);
    assert e.dayOfMonth[0] != Item(All, None) && e.dayOfWeek[0] != Item(All, None);
  }

  lemma SpelledOutIsReadable()
    ensures NoEmptyField(SpelledOut()) && AllReadable(SpelledOut())
  {
  }

  /** It counts as weekly, and runs on Monday, 5 January 1970. */
  lemma SpelledOutIsNotWeekly()
    ensures FrequencyOf("0 0 1-31 * 0") == Weekly
    ensures var monday := 86_400_000 * 4;
            Matches(Parse("0 0 1-31 * 0").value, monday) && !Matches(Canonical(Weekly), monday)
  {
    hide Parse, Full, YearOf, MonthOf, DateOf;
    ReadsSpelledOut();
    ParseNeedsText("0 0 1-31 * 0");
    assert 1 in Full(0, 6) by { DifferentWeek(); }
    InFull(4);
    MinuteParts(4, 0, 0);
  }

  lemma DifferentWeek()
    ensures 1 in Full(0, 6)
  {
  }
}
