/**
 The month labels of a forecast. A label is read as the first of its month in universal time,
 months are added in local time, which is `offset` milliseconds ahead, and the result is shown in
 universal time again.
 */
module MonthLabels {
  import opened Options
  import opened Text
  import opened Calendar
  import opened MonthNumbers

  /** The month a label YYYY-MM names, counted from January of year 0; anything else is no date. */
  function ReadLabel(text: string): (q: Option<int>)
    ensures q.Some? ==> 0 <= q.value
  {
    if |text| != 7 || !AllDigits(text[..4]) || text[4] != '-' || !AllDigits(text[5..]) then None
    else
      var m := Value(text[5..]);
      if 1 <= m <= 12 then Some(12 * Value(text[..4]) + m - 1) else None
  }

  /** `toISOString().slice(0, 7)` in month `q`; later years than 9999 are written with a sign and six digits. */
  function WriteLabel(q: nat): string {
    if q / 12 <= 9999 then PadStart(Decimal(q / 12), 4) + "-" + PadStart(Decimal(q % 12 + 1), 2)
    else "+" + PadStart(Decimal(q / 12), 6)
  }

  lemma PaddedLength(n: nat, width: nat)
    requires 0 < width && n < Pow10(width)
    ensures |PadStart(Decimal(n), width)| == width
    ensures AllDigits(PadStart(Decimal(n), width)) && Value(PadStart(Decimal(n), width)) == n
  {
    DecimalLength(n, width);
    PadStartValue(Decimal(n), width);
    DecimalValue(n);
  }

  /** Labels are read back up to year 9999. */
  lemma ReadsLabel(q: nat)
    requires q / 12 <= 9999
    ensures ReadLabel(WriteLabel(q)) == Some(q)
  {
    var year, month := PadStart(Decimal(q / 12), 4), PadStart(Decimal(q % 12 + 1), 2);
    SmallPowers();
    PaddedLength(q / 12, 4);
    PaddedLength(q % 12 + 1, 2);
    assert WriteLabel(q)[..4] == year && WriteLabel(q)[4] == '-' && WriteLabel(q)[5..] == month;
  }

  lemma SmallPowers()
    ensures Pow10(2) == 100 && Pow10(4) == 10_000
  {
    assert Pow10(1) == 10 * Pow10(0) == 10;
    assert Pow10(3) == 10 * Pow10(2) == 1000;
  }

  /** The month shown `i` months after month `q`. */
  function ShownMonth(q: int, i: int, offset: int): int {
    var last := First(q) * 86_400_000 + offset;
    var moved := SetMonth(last, MonthOf(Day(last)) + i);
    MonthNo(Day(moved - offset))
  }

  lemma FirstDayOfMonth(q: int)
    ensures MonthNo(First(q)) == q && DateOf(First(q)) == 1
  {
    hide First, Length, MonthNo, DateOf, MonthOf;
    LengthBound(q);
    NextFirst(q);
    MonthNoIs(First(q), q);
    InMonth(First(q), q);
  }

  lemma LastDayOfMonth(q: int)
    ensures MonthNo(First(q) - 1) == q - 1 && DateOf(First(q) - 1) == Length(q - 1)
  {
    hide First, Length, MonthNo, DateOf, MonthOf;
    LengthBound(q - 1);
    NextFirst(q - 1);
    MonthNoIs(First(q) - 1, q - 1);
    InMonth(First(q) - 1, q - 1);
  }

  /** Adding months carries the date into the month counted from the day's own. */
  lemma AddsMonths(t: int, i: int)
    ensures SetMonth(t, MonthOf(Day(t)) + i) ==
            (First(MonthNo(Day(t)) + i) + DateOf(Day(t)) - 1) * 86_400_000 + TimeInDay(t)
  {
    hide First, MakeDay, YearOf, MonthOf, DateOf, TimeInDay, Day;
    MakeDayCounts(YearOf(Day(t)), MonthOf(Day(t)) + i, DateOf(Day(t)));
  }

  lemma EastOfGreenwich(q: int, i: int, offset: int)
    requires 0 <= offset < 86_400_000
    ensures ShownMonth(q, i, offset) == q + i
  {
    hide First, MonthNo, MonthOf, DateOf, SetMonth;
    var last := First(q) * 86_400_000 + offset;
    assert Day(last) == First(q) && TimeInDay(last) == offset;
    FirstDayOfMonth(q);
    AddsMonths(last, i);
    MidnightBefore(First(q + i), offset);
    FirstDayOfMonth(q + i);
  }

  lemma MidnightBefore(day: int, offset: int)
    ensures Day(day * 86_400_000 + offset - offset) == day
  {
  }

  lemma WestOfGreenwich(q: int, i: int, offset: int)
    requires -86_400_000 < offset < 0
    ensures ShownMonth(q, i, offset) == if Length(q - 1) < Length(q - 1 + i) then q - 1 + i else q + i
  {
    hide First, MonthNo, MonthOf, DateOf, SetMonth, Length;
    var last := First(q) * 86_400_000 + offset;
    var date := Length(q - 1);
    assert Day(last) == First(q) - 1 && TimeInDay(last) == 86_400_000 + offset;
    LastDayOfMonth(q);
    AddsMonths(last, i);
    var day := First(q - 1 + i) + date;
    assert ShownMonth(q, i, offset) == MonthNo(day) by {
      MidnightBefore(day, offset);
    }
    LengthBound(q - 1);
    LengthBound(q - 1 + i);
    LengthBound(q + i);
    NextFirst(q - 1 + i);
    NextFirst(q + i);
    MonthNoIs(day, if date < Length(q - 1 + i) then q - 1 + i else q + i);
  }

  /**
   A forecast month is labelled right exactly when local time is not behind universal time, or the
   month before the last one of the history is at least as long as the month before the forecast
   month: otherwise the label of that month is shown again.
   */
  lemma LabelIsRightIff(q: int, i: int, offset: int)
    requires -86_400_000 < offset < 86_400_000
    ensures ShownMonth(q, i, offset) == q + i <==> 0 <= offset || Length(q - 1 + i) <= Length(q - 1)
  {
    hide ShownMonth, Length;
    if 0 <= offset {
      EastOfGreenwich(q, i, offset);
    } else {
      WestOfGreenwich(q, i, offset);
    }
  }

  /** Five hours behind, the month after March 2023 is labelled March 2023 again. */
  lemma MarchTwice()
    ensures var march := 12 * 2023 + 2; ShownMonth(march, 1, -5 * 3_600_000) == march
  {
    hide ShownMonth;
    WestOfGreenwich(12 * 2023 + 2, 1, -5 * 3_600_000);
    MonthLengths(2023, 1);
    MonthLengths(2023, 2);
  }
}
