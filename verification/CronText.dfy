/** What parsing promises: bounds of the parsed fields, and the meaning of written expressions. */
module CronText {
  import opened Options
  import opened Text
  import opened Cron
  import opened CronSyntax

  // ---------------------------------------------------------------- parsed fields

  lemma EntryNotEmpty(part: string, min: int, max: int)
    requires min <= max && Entry(part, min, max).Ok?
    ensures Entry(part, min, max).value.start in Members(Entry(part, min, max).value)
  {
  }

  lemma StarIsAll(min: int, max: int)
    requires min <= max
    ensures FieldOf("*", min, max).Ok? && !FieldOf("*", min, max).value.restricted
    ensures forall v :: v in FieldOf("*", min, max).value.values <==> min <= v <= max
  {
    TrimNoSpace("*");
    SplitNone("*", ',');
    SplitNone("*", '/');
    assert Entry("*", min, max) == Ok(Range(min, max, 1));
    assert Union(["*"], min, max) == With(Members(Range(min, max, 1)), Ok({}));
    assert min in Members(Range(min, max, 1));
  }

  /**
   A parsed field selects at least one value, all of them in bounds, and all there are when it
   is not restricted; the error for an empty selection never comes up.
   */
  lemma FieldInBounds(field: string, min: int, max: int)
    requires min <= max
    ensures FieldOf(field, min, max) != Err(NoValues)
    ensures FieldOf(field, min, max).Ok? ==>
              var f := FieldOf(field, min, max).value;
              && f.values != {} && (forall v :: v in f.values ==> min <= v <= max)
              && (!f.restricted ==> forall v :: min <= v <= max ==> v in f.values)
  {
    var trimmed := Trim(field);
    var parts := Split(trimmed, ',');
    UnionOfEntries(parts, min, max);
    if Union(parts, min, max).Ok? {
      EntryNotEmpty(parts[0], min, max);
      var values := Union(parts, min, max).value;
      assert Entry(parts[0], min, max).value.start in values;
      forall v | v in values ensures min <= v <= max {
        var i :| 0 <= i < |parts| && v in Members(Entry(parts[i], min, max).value);
      }
      StarIsAll(min, max);
      TrimNoSpace("*");
    } else {
      UnionError(parts, min, max);
    }
  }

  lemma {:induction false} UnionError(parts: seq<string>, min: int, max: int)
    requires Union(parts, min, max).Err?
    ensures Union(parts, min, max) != Err(NoValues)
  {
    if Entry(parts[0], min, max).Ok? {
      UnionError(parts[1..], min, max);
    }
  }

  /** Every parsed schedule is well-formed. */
  lemma ParsedIsWellFormed(expression: string)
    requires Parse(expression).Ok?
    ensures WellFormed(Parse(expression).value)
  {
    hide FieldOf, Words, Trim, SundayIsZero;
    var parts := Words(Trim(expression));
    FieldInBounds(parts[0], 0, 59);
    FieldInBounds(parts[1], 0, 23);
    FieldInBounds(parts[2], 1, 31);
    FieldInBounds(parts[3], 1, 12);
    FieldInBounds(parts[4], 0, 7);
    SundayKept(FieldOf(parts[4], 0, 7).value.values);
  }

  lemma SundayKept(values: set<int>)
    requires values != {} && forall v :: v in values ==> 0 <= v <= 7
    ensures SundayIsZero(values) != {} && forall v :: v in SundayIsZero(values) ==> 0 <= v < 7
    ensures forall v :: 0 < v < 7 && v in values ==> v in SundayIsZero(values)
    ensures 0 in SundayIsZero(values) <==> 0 in values || 7 in values
  {
    if 7 in values {
      assert 0 in SundayIsZero(values);
    }
  }

  /** A parsed expression that restricts the weekday or admits a day of the month up to 28 always has a next run. */
  lemma ParsedHasNextRun(expression: string, from: int, date: int)
    requires Parse(expression).Ok?
    requires var s := Parse(expression).value; s.dayOfWeekRestricted || (date <= 28 && date in s.dayOfMonth)
    ensures NextRun(Parse(expression).value, from).Some?
  {
    hide Parse, NextRun;
    ParsedIsWellFormed(expression);
    var s := Parse(expression).value;
    var m := Member(s.month);
    MonthHas28Days(m);
    assert s.dayOfWeekRestricted || (1 <= m <= 12 && m in s.month && date in s.dayOfMonth && date <= CommonLength(m));
    AlwaysDueIsFound(s, from);
  }

  lemma MonthHas28Days(m: int)
    requires 1 <= m <= 12
    ensures 28 <= CommonLength(m)
  {
  }

  // ---------------------------------------------------------------- written fields

  datatype Span = All | One(n: nat) | FromTo(a: nat, b: nat)

  datatype Item = Item(span: Span, step: Option<nat>)

  function WriteSpan(span: Span): string {
    match span
    case All => "*"
    case One(n) => Decimal(n)
    case FromTo(a, b) => Decimal(a) + "-" + Decimal(b)
  }

  function WriteItem(item: Item): string {
    WriteSpan(item.span) + if item.step.Some? then "/" + Decimal(item.step.value) else ""
  }

  function WriteItems(items: seq<Item>): (parts: seq<string>)
    ensures |parts| == |items| && forall i :: 0 <= i < |items| ==> parts[i] == WriteItem(items[i])
  {
    if items == [] then [] else [WriteItem(items[0])] + WriteItems(items[1..])
  }

  function WriteField(items: seq<Item>): string {
    Join(WriteItems(items), ",")
  }

  /** What an item means: the values it selects, or why it is refused. */
  function RangeOf(item: Item, min: int, max: int): Result<Range, Error> {
    var start := match item.span case All => min case One(n) => n case FromTo(a, _) => a;
    var end := match item.span case All => max case One(n) => n case FromTo(_, b) => b;
    if item.step == Some(0) then Err(BadStep)
    else if item.span.FromTo? && start > end then Err(Backward)
    else if start < min || end > max then Err(OutOfBounds)
    else Ok(Range(start, end, if item.step.Some? then item.step.value else 1))
  }

  lemma NotInDecimal(n: nat, c: char)
    requires !IsDigit(c)
    ensures c !in Decimal(n)
  {
  }

  lemma DecimalSplit(a: nat, c: char, b: nat)
    requires !IsDigit(c)
    ensures Split(Decimal(a) + [c] + Decimal(b), c) == [Decimal(a), Decimal(b)]
  {
    NotInDecimal(a, c);
    NotInDecimal(b, c);
    SplitAt(Decimal(a), c, Decimal(b));
    SplitNone(Decimal(b), c);
  }

  /** The characters of an item. */
  predicate ItemChar(c: char) {
    IsDigit(c) || c == '*' || c == '-' || c == '/'
  }

  lemma SpanChars(span: Span)
    ensures WriteSpan(span) != "" && '/' !in WriteSpan(span)
    ensures forall i :: 0 <= i < |WriteSpan(span)| ==> ItemChar(WriteSpan(span)[i])
  {
  }

  lemma ItemChars(item: Item)
    ensures WriteItem(item) != "" && ',' !in WriteItem(item) && NoSpace(WriteItem(item))
    ensures forall i :: 0 <= i < |WriteItem(item)| ==> ItemChar(WriteItem(item)[i])
  {
    SpanChars(item.span);
  }

  lemma BoundsOfSpan(span: Span, min: int, max: int)
    ensures Bounds(WriteSpan(span), min, max) ==
            match span
            case All => Ok((min, max))
            case One(n) => Ok((n, n))
            case FromTo(a, b) => if a > b then Err(Backward) else Ok((a, b))
  {
    match span
    case All =>
    case One(n) =>
      NotInDecimal(n, '-');
      DecimalValue(n);
    case FromTo(a, b) =>
      DecimalSplit(a, '-', b);
      DecimalValue(a);
      DecimalValue(b);
      assert (Decimal(a) + "-" + Decimal(b))[|Decimal(a)|] == '-';
  }

  lemma StepOfItem(item: Item)
    ensures StepOf(WriteItem(item)) ==
            if item.step == Some(0) then Err(BadStep) else Ok(if item.step.Some? then item.step.value else 1)
    ensures Split(WriteItem(item), '/')[0] == WriteSpan(item.span)
  {
    hide Decimal, WriteSpan;
    var span := WriteSpan(item.span);
    SpanChars(item.span);
    if item.step.Some? {
      var n := item.step.value;
      NotInDecimal(n, '/');
      SplitAt(span, '/', Decimal(n));
      SplitNone(Decimal(n), '/');
      DecimalValue(n);
      assert WriteItem(item) == span + "/" + Decimal(n);
      assert WriteItem(item)[|span|] == '/';
    } else {
      assert WriteItem(item) == span;
      SplitNone(span, '/');
    }
  }

  /** A written item is read as what it means. */
  lemma EntryOfItem(item: Item, min: int, max: int)
    ensures Entry(WriteItem(item), min, max) == RangeOf(item, min, max)
  {
    ItemChars(item);
    TrimNoSpace(WriteItem(item));
    StepOfItem(item);
    BoundsOfSpan(item.span, min, max);
  }

  ghost predicate Readable(items: seq<Item>, min: int, max: int) {
    forall i :: 0 <= i < |items| ==> RangeOf(items[i], min, max).Ok?
  }

  /** `values` is the union of what the items select. */
  ghost predicate Denotes(values: set<int>, items: seq<Item>, min: int, max: int)
    requires Readable(items, min, max)
  {
    forall v :: v in values <==>
                exists i :: 0 <= i < |items| && Selects(items[i], min, max, v)
  }

  predicate Selects(item: Item, min: int, max: int, v: int)
    requires RangeOf(item, min, max).Ok?
  {
    v in Members(RangeOf(item, min, max).value)
  }

  lemma {:induction false} JoinChars(items: seq<Item>)
    requires items != []
    ensures IsWord(WriteField(items))
    ensures WriteField(items) == "*" ==> items == [Item(All, None)]
  {
    ItemChars(items[0]);
    StarIsOneItem(items[0]);
    assert WriteItems(items)[1..] == WriteItems(items[1..]);
    if |items| > 1 {
      JoinChars(items[1..]);
    }
  }

  lemma StarIsOneItem(item: Item)
    ensures WriteItem(item) == "*" ==> item == Item(All, None)
  {
    var span := WriteSpan(item.span);
    SpanChars(item.span);
    if item.step.Some? {
      assert |WriteItem(item)| >= 2;
    } else if !item.span.All? {
      assert WriteItem(item)[0] == span[0] && IsDigit(span[0]);
    }
  }

  /** A written field is read as the union of its items, and is refused exactly when one of them is. */
  lemma FieldOfItems(items: seq<Item>, min: int, max: int)
    requires items != [] && min <= max
    ensures FieldOf(WriteField(items), min, max).Ok? <==> Readable(items, min, max)
    ensures Readable(items, min, max) ==>
              var f := FieldOf(WriteField(items), min, max).value;
              Denotes(f.values, items, min, max) && (f.restricted <==> items != [Item(All, None)])
  {
    var parts, text := WriteItems(items), WriteField(items);
    JoinChars(items);
    TrimNoSpace(text);
    forall i | 0 <= i < |items| ensures ',' !in parts[i] && Entry(parts[i], min, max) == RangeOf(items[i], min, max) {
      ItemChars(items[i]);
      EntryOfItem(items[i], min, max);
    }
    SplitJoin(parts, ',');
    UnionOfEntries(parts, min, max);
    FieldInBounds(text, min, max);
    if Readable(items, min, max) {
      SameUnion(Union(parts, min, max).value, parts, items, min, max);
      if items == [Item(All, None)] {
        assert text == "*";
      }
    }
  }

  lemma SameUnion(values: set<int>, parts: seq<string>, items: seq<Item>, min: int, max: int)
    requires |parts| == |items| && Readable(items, min, max)
    requires forall i :: 0 <= i < |items| ==> Entry(parts[i], min, max) == RangeOf(items[i], min, max)
    requires forall v :: v in values <==>
                         exists i :: 0 <= i < |parts| && v in Members(Entry(parts[i], min, max).value)
    ensures Denotes(values, items, min, max)
  {
    forall v ensures v in values <==> exists i :: 0 <= i < |items| && Selects(items[i], min, max, v) {
      if v in values {
        var i :| 0 <= i < |parts| && v in Members(Entry(parts[i], min, max).value);
        assert Selects(items[i], min, max, v);
      }
      if i :| 0 <= i < |items| && Selects(items[i], min, max, v) {
        assert v in Members(Entry(parts[i], min, max).value);
      }
    }
  }

  // ---------------------------------------------------------------- written expressions

  datatype Expression = Expression(
    minute: seq<Item>, hour: seq<Item>, dayOfMonth: seq<Item>, month: seq<Item>, dayOfWeek: seq<Item>)

  ghost predicate NoEmptyField(e: Expression) {
    e.minute != [] && e.hour != [] && e.dayOfMonth != [] && e.month != [] && e.dayOfWeek != []
  }

  function Write(e: Expression): string {
    Join([WriteField(e.minute), WriteField(e.hour), WriteField(e.dayOfMonth), WriteField(e.month),
          WriteField(e.dayOfWeek)], " ")
  }

  ghost predicate AllReadable(e: Expression) {
    && Readable(e.minute, 0, 59) && Readable(e.hour, 0, 23) && Readable(e.dayOfMonth, 1, 31)
    && Readable(e.month, 1, 12) && Readable(e.dayOfWeek, 0, 7)
  }

  /** The schedule an expression stands for, field by field; the last one up to the two names of Sunday. */
  ghost predicate Means(s: Schedule, e: Expression)
    requires AllReadable(e)
  {
    && Denotes(s.minute, e.minute, 0, 59) && Denotes(s.hour, e.hour, 0, 23)
    && Denotes(s.dayOfMonth, e.dayOfMonth, 1, 31) && Denotes(s.month, e.month, 1, 12)
    && (exists days :: Denotes(days, e.dayOfWeek, 0, 7) && s.dayOfWeek == SundayIsZero(days))
    && (s.dayOfMonthRestricted <==> e.dayOfMonth != [Item(All, None)])
    && (s.dayOfWeekRestricted <==> e.dayOfWeek != [Item(All, None)])
  }

  /** Reading a written expression gives its meaning; it fails exactly when an item has none. */
  lemma ReadsWritten(e: Expression)
    requires NoEmptyField(e)
    ensures Parse(Write(e)).Ok? <==> AllReadable(e)
    ensures AllReadable(e) ==> Means(Parse(Write(e)).value, e)
  {
    hide WriteField, FieldOf, Readable, Denotes, Join, Words, Trim, SundayIsZero;
    var parts := [WriteField(e.minute), WriteField(e.hour), WriteField(e.dayOfMonth), WriteField(e.month),
                  WriteField(e.dayOfWeek)];
    JoinChars(e.minute);
    JoinChars(e.hour);
    JoinChars(e.dayOfMonth);
    JoinChars(e.month);
    JoinChars(e.dayOfWeek);
    WordsJoin(parts);
    TrimWords(parts);
    FieldOfItems(e.minute, 0, 59);
    FieldOfItems(e.hour, 0, 23);
    FieldOfItems(e.dayOfMonth, 1, 31);
    FieldOfItems(e.month, 1, 12);
    FieldOfItems(e.dayOfWeek, 0, 7);
  }
}
