/** Months numbered from year 0 on, so that adding months is adding numbers. */
module MonthNumbers {
  import opened Calendar

  function MonthNo(d: int): int {
    12 * YearOf(d) + MonthOf(d)
  }

  /** The first day of month number `q`. */
  function First(q: int): int {
    DayFromYear(q / 12) + MonthStart(IsLeap(q / 12), q % 12)
  }

  function Length(q: int): int {
    DaysInMonth(q / 12, q % 12)
  }

  lemma LengthBound(q: int)
    ensures 28 <= Length(q) <= 31
  {
    MonthsGrow(IsLeap(q / 12), q % 12, q % 12 + 1);
  }

  lemma NextFirst(q: int)
    ensures First(q + 1) == First(q) + Length(q)
  {
    if q % 12 < 11 {
      assert (q + 1) / 12 == q / 12 && (q + 1) % 12 == q % 12 + 1;
    } else {
      assert (q + 1) / 12 == q / 12 + 1 && (q + 1) % 12 == 0;
      YearLength(q / 12);
    }
  }

  lemma {:induction false} FirstsGrow(a: int, b: int)
    requires a <= b
    ensures First(a) + 28 * (b - a) <= First(b) <= First(a) + 31 * (b - a)
    decreases b - a
  {
    if a < b {
      FirstsGrow(a, b - 1);
      NextFirst(b - 1);
      LengthBound(b - 1);
    }
  }

  /** A day lies in its month. */
  lemma InMonth(d: int, q: int)
    requires q == MonthNo(d)
    ensures DateOf(d) == d - First(q) + 1 && 1 <= DateOf(d) <= Length(q)
    ensures q % 12 == MonthOf(d)
  {
    assert q / 12 == YearOf(d) && q % 12 == MonthOf(d);
    PartsOf(d);
  }

  /** Only days of a month lie in it. */
  lemma MonthNoIs(d: int, q: int)
    requires First(q) <= d < First(q + 1)
    ensures MonthNo(d) == q
  {
    hide First, MonthNo, Length;
    InMonth(d, MonthNo(d));
    NextFirst(MonthNo(d));
    if MonthNo(d) < q {
      FirstsGrow(MonthNo(d) + 1, q);
    } else if q < MonthNo(d) {
      FirstsGrow(q + 1, MonthNo(d));
    }
  }

  /** MakeDay counts from the first day of the month it is given. */
  lemma MakeDayCounts(y: int, m: int, date: int)
    ensures MakeDay(y, m, date) == First(12 * y + m) + date - 1
  {
    assert (12 * y + m) / 12 == y + m / 12 && (12 * y + m) % 12 == m % 12;
  }

  /** A date carried to month `q` stays in it, or spills into the next one. */
  lemma Spill(q: int, date: int)
    requires 1 <= date <= 31
    ensures MonthNo(First(q) + date - 1) == if date <= Length(q) then q else q + 1
  {
    hide First, MonthNo, Length;
    NextFirst(q);
    NextFirst(q + 1);
    LengthBound(q);
    LengthBound(q + 1);
    MonthNoIs(First(q) + date - 1, if date <= Length(q) then q else q + 1);
  }
}
