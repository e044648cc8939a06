/**
 The proleptic Gregorian calendar as ECMA-262 defines dates (section 21.4.1), on local time
 without daylight saving. Days count from 1970-01-01; months run from 0 to 11; times are in
 milliseconds. Division rounds down, since every divisor here is positive.
 */
module Calendar {
  function DayFromYear(y: int): int {
    365 * (y - 1970) + (y - 1969) / 4 - (y - 1901) / 100 + (y - 1601) / 400
  }

  predicate IsLeap(y: int) {
    y % 4 == 0 && (y % 100 != 0 || y % 400 == 0)
  }

  function DaysInYear(y: int): int {
    if IsLeap(y) then 366 else 365
  }

  lemma YearLength(y: int)
    ensures DayFromYear(y + 1) == DayFromYear(y) + DaysInYear(y)
  {
    Quarter(y, 4, 1969);
    Quarter(y, 100, 1901);
    Quarter(y, 400, 1601);
    Multiples(y);
  }

  lemma Multiples(y: int)
    ensures y % 400 == 0 ==> y % 100 == 0
    ensures y % 100 == 0 ==> y % 4 == 0
  {
  }

  /** A quotient steps up exactly at the multiples of the divisor. */
  lemma Quarter(y: int, n: int, first: int)
    requires (n == 4 && first == 1969) || (n == 100 && first == 1901) || (n == 400 && first == 1601)
    ensures (y + 1 - first) / n - (y - first) / n == if y % n == 0 then 1 else 0
  {
  }

  lemma {:induction false} YearsGrow(a: int, b: int)
    requires a <= b
    ensures DayFromYear(a) + 365 * (b - a) <= DayFromYear(b)
    decreases b - a
  {
    if a < b {
      YearsGrow(a, b - 1);
      YearLength(b - 1);
    }
  }

  /** Walks from year `y` to the year of day `d`. */
  function YearFrom(d: int, y: int): (r: int)
    ensures DayFromYear(r) <= d < DayFromYear(r + 1)
    decreases if d < DayFromYear(y) then DayFromYear(y) - d
              else if DayFromYear(y + 1) <= d then d - DayFromYear(y)
              else 0
  {
    YearLength(y);
    YearLength(y - 1);
    if d < DayFromYear(y) then YearFrom(d, y - 1)
    else if DayFromYear(y + 1) <= d then YearFrom(d, y + 1)
    else y
  }

  function YearOf(d: int): (y: int)
    ensures DayFromYear(y) <= d < DayFromYear(y + 1)
  {
    YearFrom(d, 1970)
  }

  lemma YearIs(d: int, y: int)
    requires DayFromYear(y) <= d < DayFromYear(y + 1)
    ensures YearOf(d) == y
  {
    if YearOf(d) < y {
      YearsGrow(YearOf(d) + 1, y);
    } else if y < YearOf(d) {
      YearsGrow(y + 1, YearOf(d));
    }
  }

  /** Days of a common year before month `m`. */
  function DaysBefore(m: int): int
    requires 0 <= m <= 12
  {
    if m == 0 then 0 else if m == 1 then 31 else if m == 2 then 59 else if m == 3 then 90
    else if m == 4 then 120 else if m == 5 then 151 else if m == 6 then 181 else if m == 7 then 212
    else if m == 8 then 243 else if m == 9 then 273 else if m == 10 then 304 else if m == 11 then 334
    else 365
  }

  function MonthStart(leap: bool, m: int): int
    requires 0 <= m <= 12
  {
    DaysBefore(m) + (if leap && 2 <= m then 1 else 0)
  }

  function DaysInMonth(y: int, m: int): int
    requires 0 <= m < 12
  {
    MonthStart(IsLeap(y), m + 1) - MonthStart(IsLeap(y), m)
  }

  /** The lengths of the months, January being month 0. */
  lemma MonthLengths(y: int, m: int)
    requires 0 <= m < 12
    ensures DaysInMonth(y, m) ==
            if m == 1 then (if IsLeap(y) then 29 else 28) else if m in {3, 5, 8, 10} then 30 else 31
  {
  }

  function MonthIn(leap: bool, k: int, m: int): (r: int)
    requires 0 <= m < 12 && MonthStart(leap, m) <= k < MonthStart(leap, 12)
    ensures 0 <= r < 12 && MonthStart(leap, r) <= k < MonthStart(leap, r + 1)
    decreases 12 - m
  {
    if k < MonthStart(leap, m + 1) then m else MonthIn(leap, k, m + 1)
  }

  function MonthOf(d: int): (m: int)
    ensures 0 <= m < 12
  {
    var y := YearOf(d);
    YearLength(y);
    MonthIn(IsLeap(y), d - DayFromYear(y), 0)
  }

  function DateOf(d: int): int {
    var y := YearOf(d);
    d - DayFromYear(y) - MonthStart(IsLeap(y), MonthOf(d)) + 1
  }

  function WeekDayOf(d: int): int {
    (d + 4) % 7
  }

  /** MakeDay of section 21.4.1.28: months beyond the year carry over, and so do days beyond the month. */
  function MakeDay(y: int, m: int, date: int): int {
    var ym := y + m / 12;
    DayFromYear(ym) + MonthStart(IsLeap(ym), m % 12) + date - 1
  }

  predicate IsDate(y: int, m: int, date: int) {
    0 <= m < 12 && 1 <= date <= DaysInMonth(y, m)
  }

  lemma MakeDayInYear(y: int, m: int, date: int)
    requires 0 <= m < 12
    ensures MakeDay(y, m, date) == DayFromYear(y) + MonthStart(IsLeap(y), m) + date - 1
  {
    assert m / 12 == 0 && m % 12 == m;
  }

  /** The parts of a day are a date, and that date is the day. */
  lemma PartsOf(d: int)
    ensures IsDate(YearOf(d), MonthOf(d), DateOf(d))
    ensures MakeDay(YearOf(d), MonthOf(d), DateOf(d)) == d
  {
    hide MakeDay, DayFromYear, IsLeap, MonthStart;
    var y := YearOf(d);
    YearLength(y);
    MakeDayInYear(y, MonthOf(d), DateOf(d));
    var m := MonthOf(d);
    assert MonthStart(IsLeap(y), m) <= d - DayFromYear(y) < MonthStart(IsLeap(y), m + 1);
  }

  lemma MonthsGrow(leap: bool, a: int, b: int)
    requires 0 <= a <= b <= 12
    ensures MonthStart(leap, a) <= MonthStart(leap, b)
    ensures a < b ==> MonthStart(leap, a) + 28 <= MonthStart(leap, b)
    ensures b == a + 1 ==> MonthStart(leap, b) <= MonthStart(leap, a) + 31
  {
  }

  lemma OneMonth(leap: bool, k: int, r: int, m: int)
    requires 0 <= r < 12 && MonthStart(leap, r) <= k < MonthStart(leap, r + 1)
    requires 0 <= m < 12 && MonthStart(leap, m) <= k < MonthStart(leap, m + 1)
    ensures r == m
  {
    if r < m {
      MonthsGrow(leap, r + 1, m);
    } else if m < r {
      MonthsGrow(leap, m + 1, r);
    }
  }

  lemma MonthIs(leap: bool, k: int, m: int)
    requires 0 <= m < 12 && MonthStart(leap, m) <= k < MonthStart(leap, m + 1)
    ensures 0 <= k < MonthStart(leap, 12)
    ensures MonthIn(leap, k, 0) == m
  {
    MonthsGrow(leap, m + 1, 12);
    MonthsGrow(leap, 0, m);
    OneMonth(leap, k, MonthIn(leap, k, 0), m);
  }

  /** A date has these parts. */
  lemma PartsOfDate(y: int, m: int, date: int)
    requires IsDate(y, m, date)
    ensures var d := MakeDay(y, m, date); YearOf(d) == y && MonthOf(d) == m && DateOf(d) == date
    ensures DayFromYear(y) <= MakeDay(y, m, date) < DayFromYear(y + 1)
  {
    MakeDayInYear(y, m, date);
    PartsOfDayInYear(MakeDay(y, m, date), y, MonthStart(IsLeap(y), m) + date - 1, m);
  }

  lemma PartsOfDayInYear(d: int, y: int, k: int, m: int)
    requires d == DayFromYear(y) + k && 0 <= m < 12
    requires MonthStart(IsLeap(y), m) <= k < MonthStart(IsLeap(y), m + 1)
    ensures YearOf(d) == y && MonthOf(d) == m && DateOf(d) == k - MonthStart(IsLeap(y), m) + 1
    ensures DayFromYear(y) <= d < DayFromYear(y + 1)
  {
    MonthIs(IsLeap(y), k, m);
    YearLength(y);
    YearIs(d, y);
  }

  // ---------------------------------------------------------------- times

  function Day(t: int): int { t / 86_400_000 }

  function Hours(t: int): int { t / 3_600_000 % 24 }

  function Minutes(t: int): int { t / 60_000 % 60 }

  function TimeInDay(t: int): int { t % 86_400_000 }

  /** Date.setHours(0, 0, 0, 0). */
  function SetMidnight(t: int): int {
    Day(t) * 86_400_000
  }

  /** Date.setDate. */
  function SetDate(t: int, date: int): int {
    MakeDay(YearOf(Day(t)), MonthOf(Day(t)), date) * 86_400_000 + TimeInDay(t)
  }

  /** Date.setMonth with one argument: the day of the month stays and may overflow. */
  function SetMonth(t: int, m: int): int {
    MakeDay(YearOf(Day(t)), m, DateOf(Day(t))) * 86_400_000 + TimeInDay(t)
  }

  lemma DayOfSet(day: int, t: int)
    ensures Day(day * 86_400_000 + TimeInDay(t)) == day
    ensures TimeInDay(day * 86_400_000 + TimeInDay(t)) == TimeInDay(t)
  {
  }

  /** Setting the date moves the day by the difference. */
  lemma SetDateMoves(t: int, date: int)
    ensures Day(SetDate(t, date)) == Day(t) + date - DateOf(Day(t))
  {
    PartsOf(Day(t));
    DayOfSet(MakeDay(YearOf(Day(t)), MonthOf(Day(t)), date), t);
  }
}
