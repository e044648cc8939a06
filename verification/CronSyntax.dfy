/** The text of a cron expression: five fields of comma-separated ranges, each with an optional step. */
module CronSyntax {
  import opened Options
  import opened Text
  import opened Cron

  datatype Error =
      EmptyExpression | WrongFieldCount | EmptyField | EmptyEntry | BadStep | BadRange | Backward | BadValue
    | OutOfBounds | NoValues

  /** The values from `start` to `end` at a distance of `step`. */
  datatype Range = Range(start: int, end: int, step: int)

  datatype Field = Field(values: set<int>, restricted: bool)

  function Members(r: Range): set<int>
    requires 0 < r.step
  {
    set v | r.start <= v <= r.end && OnStep(r, v)
  }

  predicate OnStep(r: Range, v: int)
    requires 0 < r.step
  {
    (v - r.start) % r.step == 0
  }

  // ---------------------------------------------------------------- one entry

  /** The step after the first slash; whatever follows a second slash is not looked at. */
  function StepOf(token: string): (r: Result<int, Error>)
    ensures r.Ok? ==> 0 < r.value
  {
    SplitCount(token, '/');
    if '/' !in token then Ok(1)
    else
      var parts := Split(token, '/');
      if parts[0] == "" || !IsNumeral(parts[1]) || Value(parts[1]) == 0 then Err(BadStep) else Ok(Value(parts[1]))
  }

  function Bounds(range: string, min: int, max: int): Result<(int, int), Error> {
    SplitCount(range, '-');
    if range == "*" then Ok((min, max))
    else if '-' in range then
      var parts := Split(range, '-');
      if !IsNumeral(parts[0]) || !IsNumeral(parts[1]) then Err(BadRange)
      else if Value(parts[0]) > Value(parts[1]) then Err(Backward)
      else Ok((Value(parts[0]), Value(parts[1])))
    else if IsNumeral(range) then Ok((Value(range), Value(range)))
    else Err(BadValue)
  }

  function Entry(part: string, min: int, max: int): (r: Result<Range, Error>)
    ensures r.Ok? ==> 0 < r.value.step && min <= r.value.start && r.value.end <= max
  {
    var token := Trim(part);
    if token == "" then Err(EmptyEntry)
    else
      match StepOf(token)
      case Err(e) => Err(e)
      case Ok(step) =>
        match Bounds(Split(token, '/')[0], min, max)
        case Err(e) => Err(e)
        case Ok((start, end)) => if start < min || end > max then Err(OutOfBounds) else Ok(Range(start, end, step))
  }

  // ---------------------------------------------------------------- one field

  /** The union of the entries, or the error of the first entry that has one. */
  function Union(parts: seq<string>, min: int, max: int): Result<set<int>, Error> {
    if parts == [] then Ok({})
    else
      match Entry(parts[0], min, max)
      case Err(e) => Err(e)
      case Ok(range) => With(Members(range), Union(parts[1..], min, max))
  }

  function With(values: set<int>, rest: Result<set<int>, Error>): Result<set<int>, Error> {
    if rest.Ok? then Ok(values + rest.value) else rest
  }

  function FieldOf(field: string, min: int, max: int): Result<Field, Error> {
    var trimmed := Trim(field);
    if trimmed == "" then Err(EmptyField)
    else
      match Union(Split(trimmed, ','), min, max)
      case Err(e) => Err(e)
      case Ok(values) => if values == {} then Err(NoValues) else Ok(Field(values, trimmed != "*"))
  }

  lemma SmallMultiple(k: int, d: int)
    requires -k < k * d < k
    ensures d == 0
  {
  }

  lemma StepAgain(x: int, k: int)
    requires 0 < k
    ensures (x + k) % k == x % k
  {
    var q, q' := x / k, (x + k) / k;
    assert x == k * q + x % k && x + k == k * q' + (x + k) % k;
    assert k * (q' - q - 1) == x % k - (x + k) % k;
    SmallMultiple(k, q' - q - 1);
  }

  /** No multiple of `k` lies strictly between two neighbours. */
  lemma NoMultipleBetween(x: int, y: int, k: int)
    requires 0 < k && x % k == 0 && x < y < x + k
    ensures y % k != 0
  {
    var q, q' := x / k, y / k;
    assert x == k * q && y == k * q' + y % k;
    assert k * (q' - q) == y - x - y % k;
    SmallMultiple(k, q' - q);
  }

  method AddRange(values: set<int>, r: Range) returns (more: set<int>)
    requires 0 < r.step
    ensures more == values + Members(r)
  {
    more := values;
    var value := r.start;
    while value <= r.end
      invariant r.start <= value && (value - r.start) % r.step == 0
      invariant forall v :: v in more <==> v in values || (v in Members(r) && v < value)
      decreases r.end - value
    {
      more := more + {value};
      forall v | value < v < value + r.step ensures v !in Members(r) {
        NoMultipleBetween(value - r.start, v - r.start, r.step);
      }
      StepAgain(value - r.start, r.step);
      value := value + r.step;
    }
  }

  lemma WithNothing(u: Result<set<int>, Error>)
    ensures With({}, u) == u
  {
    if u.Ok? {
      assert {} + u.value == u.value;
    }
  }

  lemma WithMore(a: set<int>, b: set<int>, u: Result<set<int>, Error>)
    ensures With(a, With(b, u)) == With(a + b, u)
  {
    if u.Ok? {
      assert a + (b + u.value) == (a + b) + u.value;
    }
  }

  /** parseCronField. */
  method ParseCronField(field: string, min: int, max: int) returns (r: Result<Field, Error>)
    ensures r == FieldOf(field, min, max)
  {
    var trimmed := Trim(field);
    if trimmed == "" {
      return Err(EmptyField);
    }
    var values := {};
    var parts := Split(trimmed, ',');
    var i := 0;
    assert parts[0..] == parts;
    WithNothing(Union(parts, min, max));
    while i < |parts|
      invariant 0 <= i <= |parts|
      invariant Union(parts, min, max) == With(values, Union(parts[i..], min, max))
    {
      var entry := Entry(parts[i], min, max);
      assert parts[i..][0] == parts[i] && parts[i..][1..] == parts[i + 1..];
      if entry.Err? {
        return Err(entry.error);
      }
      WithMore(values, Members(entry.value), Union(parts[i + 1..], min, max));
      values := AddRange(values, entry.value);
      i := i + 1;
    }
    if values == {} {
      return Err(NoValues);
    }
    r := Ok(Field(values, trimmed != "*"));
  }

  // ---------------------------------------------------------------- the expression

  /** Weekday 7 is another name for Sunday. */
  function SundayIsZero(values: set<int>): set<int> {
    if 7 in values then values - {7} + {0} else values
  }

  function Parse(expression: string): Result<Schedule, Error> {
    var trimmed := Trim(expression);
    var parts := Words(trimmed);
    if trimmed == "" then Err(EmptyExpression)
    else if |parts| != 5 then Err(WrongFieldCount)
    else
      var minute :- FieldOf(parts[0], 0, 59);
      var hour :- FieldOf(parts[1], 0, 23);
      var dayOfMonth :- FieldOf(parts[2], 1, 31);
      var month :- FieldOf(parts[3], 1, 12);
      var dayOfWeek :- FieldOf(parts[4], 0, 7);
      Ok(Schedule(minute.values, hour.values, dayOfMonth.values, month.values, SundayIsZero(dayOfWeek.values),
                  dayOfMonth.restricted, dayOfWeek.restricted))
  }

  /** parseCronExpression. */
  method ParseCronExpression(expression: string) returns (r: Result<Schedule, Error>)
    ensures r == Parse(expression)
  {
    if Trim(expression) == "" {
      return Err(EmptyExpression);
    }
    var parts := Words(Trim(expression));
    if |parts| != 5 {
      return Err(WrongFieldCount);
    }
    var minute :- ParseCronField(parts[0], 0, 59);
    var hour :- ParseCronField(parts[1], 0, 23);
    var dayOfMonth :- ParseCronField(parts[2], 1, 31);
    var month :- ParseCronField(parts[3], 1, 12);
    var dayOfWeek :- ParseCronField(parts[4], 0, 7);
    var days := dayOfWeek.values;
    if 7 in days {
      days := days - {7};
      days := days + {0};
    }
    r := Ok(Schedule(minute.values, hour.values, dayOfMonth.values, month.values, days,
                     dayOfMonth.restricted, dayOfWeek.restricted));
  }

  // ---------------------------------------------------------------- what a field denotes

  /** A field is the union of its entries' ranges; it fails exactly when an entry does. */
  lemma {:induction false} UnionOfEntries(parts: seq<string>, min: int, max: int)
    ensures Union(parts, min, max).Ok? <==> forall i :: 0 <= i < |parts| ==> Entry(parts[i], min, max).Ok?
    ensures Union(parts, min, max).Ok? ==>
              forall v :: v in Union(parts, min, max).value <==>
                          exists i :: 0 <= i < |parts| && v in Members(Entry(parts[i], min, max).value)
  {
    if parts != [] {
      UnionOfEntries(parts[1..], min, max);
      assert parts == [parts[0]] + parts[1..];
    }
  }
}
