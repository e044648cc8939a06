/**
 Metric buckets at five granularities, kept up to date by every record; what a bucket holds is
 compared with the records themselves. There is one row for each bucket, but a record that names an
 asset or a user looks for a row that names the same, and is refused when the row names another.
 Values are exact numbers; an absent asset or user is the empty text.
 */
module Metrics {
  import opened Options
  import opened Calendar
  import opened MonthNumbers

  datatype MetricType =
    | TradeVolume | TradeCount | Revenue | TransactionFee | UserNew | BlockchainGas
    | SystemLatency | SettlementTime | ErrorRate | UserActive | Other(name: string)

  datatype Granularity = Minute | Hour | OneDay | Week | Month

  datatype Key = Key(metric: MetricType, granularity: Granularity, start: int)

  datatype Record = Record(metric: MetricType, value: real, at: int, assetCode: string, userId: string)

  datatype Row = Row(value: real, assetCode: string, userId: string)

  predicate Summed(m: MetricType) {
    m.TradeVolume? || m.TradeCount? || m.Revenue? || m.TransactionFee? || m.UserNew? || m.BlockchainGas?
  }

  /** aggregateValues. */
  function Aggregate(existing: real, current: real, m: MetricType): real {
    if Summed(m) then existing + current
    else if m.SystemLatency? || m.SettlementTime? then (existing + current) / 2.0
    else if m.ErrorRate? then current
    else if m.UserActive? then existing
    else current
  }

  // ---------------------------------------------------------------- the start of a bucket

  /** The start of the bucket an instant falls into. */
  function StartOf(t: int, g: Granularity): int {
    match g
    case Minute => t / 60_000 * 60_000
    case Hour => t / 3_600_000 * 3_600_000
    case OneDay => Day(t) * 86_400_000
    case Week => (Day(t) - WeekDayOf(Day(t))) * 86_400_000
    case Month => First(MonthNo(Day(t))) * 86_400_000
  }

  lemma MidnightOf(day: int)
    ensures Day(day * 86_400_000) == day
  {
  }

  /** getAggregationTimestamp. */
  method AggregationTimestamp(timestamp: int, g: Granularity) returns (date: int)
    ensures date == StartOf(timestamp, g)
  {
    hide YearOf, MonthOf, DateOf, First, SetDate, SetMidnight, WeekDayOf;
    date := timestamp;
    match g {
      case Minute => date := date - date % 60_000;
      case Hour => date := date - date % 3_600_000;
      case OneDay =>
        StartOfDay(timestamp);
        date := SetMidnight(date);
      case Week =>
        StartOfWeek(timestamp);
        var day := WeekDayOf(Day(date));
        date := SetMidnight(date);
        date := SetDate(date, DateOf(Day(date)) - day);
      case Month =>
        FirstOfMonth(timestamp);
        date := SetDate(date, 1);
        date := SetMidnight(date);
    }
  }

  lemma StartOfDay(t: int)
    ensures SetMidnight(t) == Day(t) * 86_400_000
  {
  }

  lemma StartOfWeek(t: int)
    ensures var midnight := SetMidnight(t);
            SetDate(midnight, DateOf(Day(midnight)) - WeekDayOf(Day(t))) == (Day(t) - WeekDayOf(Day(t))) * 86_400_000
  {
    hide YearOf, MonthOf, DateOf, WeekDayOf, MakeDay;
    var midnight := SetMidnight(t);
    MidnightOf(Day(t));
    TimeAtMidnight(Day(t));
    PartsOf(Day(t));
    EarlierDate(YearOf(Day(t)), MonthOf(Day(t)), DateOf(Day(t)), WeekDayOf(Day(t)));
  }

  lemma EarlierDate(y: int, m: int, date: int, days: int)
    ensures MakeDay(y, m, date - days) == MakeDay(y, m, date) - days
  {
  }

  lemma TimeAtMidnight(day: int)
    ensures TimeInDay(day * 86_400_000) == 0
  {
  }

  lemma FirstOfMonth(t: int)
    ensures SetMidnight(SetDate(t, 1)) == First(MonthNo(Day(t))) * 86_400_000
  {
    hide YearOf, MonthOf, DateOf, MakeDay, First, TimeInDay;
    MakeDayCounts(YearOf(Day(t)), MonthOf(Day(t)), 1);
    DayOfSet(First(MonthNo(Day(t))), t);
  }

  /** Where buckets begin: full minutes, hours and days, Sundays (day 3 was one) and firsts of months. */
  predicate IsBoundary(s: int, g: Granularity) {
    match g
    case Minute => s % 60_000 == 0
    case Hour => s % 3_600_000 == 0
    case OneDay => s % 86_400_000 == 0
    case Week => s % 86_400_000 == 0 && s / 86_400_000 % 7 == 3
    case Month => s % 86_400_000 == 0 && DateOf(s / 86_400_000) == 1
  }

  /** The bucket of an instant starts at the last boundary there was. */
  lemma StartIsLatestBoundary(t: int, g: Granularity)
    ensures IsBoundary(StartOf(t, g), g) && StartOf(t, g) <= t
    ensures forall u :: StartOf(t, g) < u <= t ==> !IsBoundary(u, g)
  {
    hide StartOf, IsBoundary;
    match g {
      case Minute => LatestMinute(t);
      case Hour => LatestHour(t);
      case OneDay => LatestDay(t);
      case Week => LatestSunday(t);
      case Month => LatestFirst(t);
    }
  }

  lemma LatestMinute(t: int)
    ensures IsBoundary(StartOf(t, Minute), Minute) && StartOf(t, Minute) <= t
    ensures forall u :: StartOf(t, Minute) < u <= t ==> !IsBoundary(u, Minute)
  {
  }

  lemma LatestHour(t: int)
    ensures IsBoundary(StartOf(t, Hour), Hour) && StartOf(t, Hour) <= t
    ensures forall u :: StartOf(t, Hour) < u <= t ==> !IsBoundary(u, Hour)
  {
  }

  lemma LatestDay(t: int)
    ensures IsBoundary(StartOf(t, OneDay), OneDay) && StartOf(t, OneDay) <= t
    ensures forall u :: StartOf(t, OneDay) < u <= t ==> !IsBoundary(u, OneDay)
  {
  }

  lemma LatestSunday(t: int)
    ensures IsBoundary(StartOf(t, Week), Week) && StartOf(t, Week) <= t
    ensures forall u :: StartOf(t, Week) < u <= t ==> !IsBoundary(u, Week)
  {
    var sunday := Day(t) - WeekDayOf(Day(t));
    forall u | sunday * 86_400_000 < u <= t && u % 86_400_000 == 0 ensures u / 86_400_000 % 7 != 3 {
      assert sunday < u / 86_400_000 <= Day(t);
    }
  }

  lemma LatestFirst(t: int)
    ensures IsBoundary(StartOf(t, Month), Month) && StartOf(t, Month) <= t
    ensures forall u :: StartOf(t, Month) < u <= t ==> !IsBoundary(u, Month)
  {
    hide First, MonthNo, DateOf;
    var q := MonthNo(Day(t));
    FirstHasDateOne(q);
    FirstIsEarlier(Day(t), q);
    forall u | First(q) * 86_400_000 < u <= t && u % 86_400_000 == 0 ensures DateOf(u / 86_400_000) != 1 {
      DaysOfMonth(Day(t), q, u / 86_400_000);
    }
  }

  lemma FirstHasDateOne(q: int)
    ensures DateOf(First(q)) == 1
  {
    hide First, MonthNo, DateOf, Length;
    LengthBound(q);
    NextFirst(q);
    MonthNoIs(First(q), q);
    InMonth(First(q), q);
  }

  lemma FirstIsEarlier(d: int, q: int)
    requires q == MonthNo(d)
    ensures First(q) <= d
  {
    hide First, MonthNo, DateOf, Length;
    InMonth(d, q);
  }

  /** The days of a month up to one of them count from its first. */
  lemma DaysOfMonth(d: int, q: int, e: int)
    requires q == MonthNo(d) && First(q) <= e <= d
    ensures DateOf(e) == e - First(q) + 1
  {
    hide First, MonthNo, DateOf, Length;
    InMonth(d, q);
    NextFirst(q);
    MonthNoIs(e, q);
    InMonth(e, q);
  }

  // ---------------------------------------------------------------- the store

  type Buckets = map<Key, Row>

  /** Does the query of a record find a row that names this asset and user? */
  predicate Finds(r: Record, assetCode: string, userId: string) {
    && (r.assetCode == "" || r.assetCode == assetCode)
    && (r.userId == "" || r.userId == userId)
  }

  /** A second row of a bucket would break the unique index. */
  predicate Refused(buckets: Buckets, key: Key, r: Record) {
    key in buckets && !Finds(r, buckets[key].assetCode, buckets[key].userId)
  }

  function Upsert(buckets: Buckets, key: Key, r: Record): Buckets {
    if key !in buckets then buckets[key := Row(r.value, r.assetCode, r.userId)]
    else if Refused(buckets, key, r) then buckets
    else buckets[key := buckets[key].(value := Aggregate(buckets[key].value, r.value, key.metric))]
  }

  function KeyOf(r: Record, g: Granularity): Key {
    Key(r.metric, g, StartOf(r.at, g))
  }

  function Granularities(): seq<Granularity> {
    [Minute, Hour, OneDay, Week, Month]
  }

  /** The buckets after upserting the first `k` granularities of a record. */
  function UpsertUpTo(buckets: Buckets, r: Record, k: nat): Buckets
    requires k <= 5
  {
    if k == 0 then buckets else Upsert(UpsertUpTo(buckets, r, k - 1), KeyOf(r, Granularities()[k - 1]), r)
  }

  function After(records: seq<Record>): Buckets {
    if records == [] then map[] else UpsertUpTo(After(records[..|records| - 1]), records[|records| - 1], 5)
  }

  class MetricsCollector {
    var buckets: Buckets

    constructor ()
      ensures buckets == map[]
    {
      buckets := map[];
    }

    method UpsertMetric(g: Granularity, timestamp: int, r: Record) returns (metric: Option<Row>)
      modifies this
      ensures var key := Key(r.metric, g, timestamp);
              && key in buckets && buckets == Upsert(old(buckets), key, r)
              && metric == if Refused(old(buckets), key, r) then None else Some(buckets[key])
    {
      var key := Key(r.metric, g, timestamp);
      if key in buckets && Finds(r, buckets[key].assetCode, buckets[key].userId) {
        var newValue := Aggregate(buckets[key].value, r.value, r.metric);
        buckets := buckets[key := buckets[key].(value := newValue)];
        return Some(buckets[key]);
      }
      if key in buckets {
        return None;
      }
      buckets := buckets[key := Row(r.value, r.assetCode, r.userId)];
      metric := Some(buckets[key]);
    }

    /**
     recordMetric: one upsert for each granularity. When one is refused the record is reported as
     failed, and the buckets of the other granularities hold it all the same.
     */
    method RecordMetric(r: Record) returns (metric: Option<Row>)
      modifies this
      ensures buckets == UpsertUpTo(old(buckets), r, 5)
      ensures metric.None? <==> exists g :: Refused(old(buckets), KeyOf(r, g), r)
      ensures metric.Some? ==> KeyOf(r, Minute) in buckets && metric.value == buckets[KeyOf(r, Minute)]
      ensures forall records :: After(records) == old(buckets) ==> After(records + [r]) == buckets
    {
      hide StartOf, Refused, Upsert, Belongs;
      var aggregations := Granularities();
      var metrics: seq<Option<Row>> := [];
      var refused := false;
      for i := 0 to |aggregations|
        invariant |metrics| == i
        invariant buckets == UpsertUpTo(old(buckets), r, i)
        invariant refused <==> exists j :: 0 <= j < i && Refused(old(buckets), KeyOf(r, aggregations[j]), r)
        invariant 0 < i && !refused ==> KeyOf(r, Minute) in buckets && metrics[0] == Some(buckets[KeyOf(r, Minute)])
      {
        NotYetTouched(old(buckets), r, i);
        var start := AggregationTimestamp(r.at, aggregations[i]);
        var upserted := UpsertMetric(aggregations[i], start, r);
        if i > 0 {
          OnlyItsOwn(old(buckets), r, i);
        }
        refused := refused || upserted.None?;
        metrics := metrics + [upserted];
      }
      AllGranularities(old(buckets), r);
      assert forall records: seq<Record> :: (records + [r])[..|records|] == records;
      metric := if refused then None else metrics[0];
    }
  }

  lemma AllGranularities(buckets: Buckets, r: Record)
    ensures (exists g :: Refused(buckets, KeyOf(r, g), r)) <==>
            exists j :: 0 <= j < 5 && Refused(buckets, KeyOf(r, Granularities()[j]), r)
  {
    hide Refused, KeyOf;
    if g :| Refused(buckets, KeyOf(r, g), r) {
      assert Granularities()[Position(g)] == g;
    }
  }

  /** Each upsert looks at a bucket the ones before it have left alone. */
  lemma NotYetTouched(buckets: Buckets, r: Record, k: nat)
    requires k < 5
    ensures var key := KeyOf(r, Granularities()[k]);
            Refused(UpsertUpTo(buckets, r, k), key, r) <==> Refused(buckets, key, r)
  {
    FirstUpserts(buckets, r, k, KeyOf(r, Granularities()[k]));
  }

  lemma OnlyItsOwn(buckets: Buckets, r: Record, k: nat)
    requires 0 < k < 5
    ensures var key := KeyOf(r, Minute);
            var before, after := UpsertUpTo(buckets, r, k), UpsertUpTo(buckets, r, k + 1);
            && (key in before <==> key in after)
            && (key in before ==> before[key] == after[key])
  {
    FirstUpserts(buckets, r, k, KeyOf(r, Minute));
    FirstUpserts(buckets, r, k + 1, KeyOf(r, Minute));
  }

  // ---------------------------------------------------------------- one bucket

  /** The records that belong to a bucket. */
  predicate Belongs(r: Record, key: Key) {
    key == KeyOf(r, key.granularity)
  }

  /** A bucket after one record of its own. */
  function Bumped(buckets: Buckets, r: Record, key: Key): Row {
    Upsert(buckets, key, r)[key]
  }

  function Position(g: Granularity): nat {
    match g case Minute => 0 case Hour => 1 case OneDay => 2 case Week => 3 case Month => 4
  }

  /** The first `k` upserts change the bucket of a key when its granularity is among them. */
  lemma {:induction false} FirstUpserts(buckets: Buckets, r: Record, k: nat, key: Key)
    requires k <= 5
    ensures var after, mine := UpsertUpTo(buckets, r, k), Position(key.granularity) < k && Belongs(r, key);
            && (key in after <==> key in buckets || mine)
            && (key in after ==> after[key] == if mine then Bumped(buckets, r, key) else buckets[key])
  {
    hide StartOf, Aggregate;
    if k > 0 {
      FirstUpserts(buckets, r, k - 1, key);
    }
  }

  /** What a bucket becomes by one record: each record touches one bucket of each granularity. */
  lemma OneRecord(buckets: Buckets, r: Record, key: Key)
    ensures var after := UpsertUpTo(buckets, r, 5);
            && (key in after <==> key in buckets || Belongs(r, key))
            && (key in after ==> after[key] == if Belongs(r, key) then Bumped(buckets, r, key) else buckets[key])
  {
    FirstUpserts(buckets, r, 5, key);
  }

  /** The first record of a bucket, whose asset and user its row keeps. */
  function Opener(records: seq<Record>, key: Key): Option<Record> {
    if records == [] then None
    else
      var n := |records| - 1;
      var opener := Opener(records[..n], key);
      if opener.Some? then opener else if Belongs(records[n], key) then Some(records[n]) else None
  }

  /** Does a record that comes after others get into its bucket? */
  predicate Accepted(before: seq<Record>, r: Record, key: Key) {
    var opener := Opener(before, key);
    opener.None? || Finds(r, opener.value.assetCode, opener.value.userId)
  }

  /** The sum of the records that belong to a bucket and got into it. */
  function Merged(records: seq<Record>, key: Key): real {
    if records == [] then 0.0
    else
      var n := |records| - 1;
      Merged(records[..n], key)
      + if Belongs(records[n], key) && Accepted(records[..n], records[n], key) then records[n].value else 0.0
  }

  /** The sum of all that belong to it. */
  function Total(records: seq<Record>, key: Key): real {
    if records == [] then 0.0
    else
      var n := |records| - 1;
      Total(records[..n], key) + if Belongs(records[n], key) then records[n].value else 0.0
  }

  lemma {:induction false} OpenerIff(records: seq<Record>, key: Key)
    ensures Opener(records, key).Some? <==> exists i :: 0 <= i < |records| && Belongs(records[i], key)
    ensures Opener(records, key).None? ==> Merged(records, key) == 0.0
  {
    hide Belongs, Accepted;
    if records != [] {
      var n := |records| - 1;
      OpenerIff(records[..n], key);
      if i :| 0 <= i < n && Belongs(records[..n][i], key) {
        assert Belongs(records[i], key);
      }
      if i :| 0 <= i < |records| && Belongs(records[i], key) {
        assert i < n ==> Belongs(records[..n][i], key);
      }
    }
  }

  /** The row of a bucket names the asset and user of its first record. */
  lemma {:induction false} RowNamesTheFirst(records: seq<Record>, key: Key)
    ensures key in After(records) <==> Opener(records, key).Some?
    ensures key in After(records) ==>
              var first := Opener(records, key).value;
              After(records)[key].assetCode == first.assetCode && After(records)[key].userId == first.userId
  {
    hide Belongs, Aggregate, UpsertUpTo, KeyOf;
    if records != [] {
      var n := |records| - 1;
      RowNamesTheFirst(records[..n], key);
      OneRecord(After(records[..n]), records[n], key);
    }
  }

  /**
   A bucket of a summed metric exists when a record belongs to it, names the asset and user of the
   first one, and holds the sum of those that name the same or none.
   */
  lemma {:induction false} BucketIsTotal(records: seq<Record>, key: Key)
    requires Summed(key.metric)
    ensures key in After(records) <==> exists i :: 0 <= i < |records| && Belongs(records[i], key)
    ensures match Opener(records, key)
            case None => key !in After(records) && Merged(records, key) == 0.0
            case Some(first) =>
              && key in After(records)
              && After(records)[key] == Row(Merged(records, key), first.assetCode, first.userId)
  {
    hide Belongs, UpsertUpTo, KeyOf;
    OpenerIff(records, key);
    RowNamesTheFirst(records, key);
    if records != [] {
      var n := |records| - 1;
      BucketIsTotal(records[..n], key);
      OneRecord(After(records[..n]), records[n], key);
    }
  }

  function Held(buckets: Buckets, key: Key): real {
    if key in buckets then buckets[key].value else 0.0
  }

  lemma HeldIsMerged(records: seq<Record>, key: Key)
    requires Summed(key.metric)
    ensures Held(After(records), key) == Merged(records, key)
  {
    BucketIsTotal(records, key);
  }

  /** Does record number `i`, when it belongs to a bucket, get into it or count for nothing? */
  predicate NotLost(records: seq<Record>, i: nat, key: Key)
    requires i < |records|
  {
    Belongs(records[i], key) && records[i].value != 0.0 ==> Accepted(records[..i], records[i], key)
  }

  ghost predicate HoldsAll(records: seq<Record>, key: Key) {
    Held(After(records), key) == Total(records, key)
  }

  lemma OneMoreHeld(records: seq<Record>, key: Key)
    requires Summed(key.metric) && records != [] && HoldsAll(records[..|records| - 1], key)
    ensures HoldsAll(records, key) <==> NotLost(records, |records| - 1, key)
  {
    hide Belongs, Accepted, After, Held;
    HeldIsMerged(records, key);
    HeldIsMerged(records[..|records| - 1], key);
  }

  /**
   Throughout a run a bucket holds all that belongs to it exactly when every record of it names no
   asset and user or those of its first one.
   */
  lemma {:induction false} HoldsAllIff(records: seq<Record>, key: Key)
    requires Summed(key.metric)
    ensures (forall n :: 0 <= n <= |records| ==> HoldsAll(records[..n], key)) <==>
            (forall i :: 0 <= i < |records| ==> NotLost(records, i, key))
  {
    hide HoldsAll, NotLost;
    assert records[..|records|] == records;
    if records == [] {
      NothingHeld(key);
    } else {
      var k := |records| - 1;
      var before := records[..k];
      HoldsAllIff(before, key);
      assert forall n :: 0 <= n <= k ==> before[..n] == records[..n];
      forall i | 0 <= i < k ensures NotLost(before, i, key) <==> NotLost(records, i, key) {
        PrefixNotLost(records, k, i, key);
      }
      if HoldsAll(before, key) {
        OneMoreHeld(records, key);
      }
      assert before[..k] == before;
    }
  }

  lemma NothingHeld(key: Key)
    ensures HoldsAll([], key)
  {
  }

  lemma PrefixNotLost(records: seq<Record>, k: nat, i: nat, key: Key)
    requires i < k <= |records|
    ensures NotLost(records[..k], i, key) <==> NotLost(records, i, key)
  {
    assert records[..k][..i] == records[..i];
  }

  /** An error rate, like a metric without a rule, is the last one its bucket took in; active users are the first. */
  lemma {:induction false} LatestAndEarliest(records: seq<Record>, key: Key, i: nat)
    requires i < |records| && Belongs(records[i], key)
    ensures key in After(records)
    ensures (key.metric.ErrorRate? || key.metric.Other?) && Accepted(records[..i], records[i], key)
            && (forall j :: i < j < |records| && Belongs(records[j], key) ==>
                              !Accepted(records[..j], records[j], key)) ==>
              After(records)[key].value == records[i].value
    ensures key.metric.UserActive? && (forall j :: 0 <= j < i ==> !Belongs(records[j], key)) ==>
              After(records)[key].value == records[i].value
  {
    hide Belongs, UpsertUpTo, KeyOf;
    var n := |records| - 1;
    OneRecord(After(records[..n]), records[n], key);
    RowNamesTheFirst(records[..n], key);
    if i < n {
      assert forall j :: 0 <= j <= n ==> records[..n][..j] == records[..j];
      LatestAndEarliest(records[..n], key, i);
    } else if forall j :: 0 <= j < i ==> !Belongs(records[j], key) {
      OpenerIff(records[..n], key);
    }
  }

  /** The metrics that add up. */
  lemma SummedIff(m: MetricType)
    ensures Summed(m) <==> m in {TradeVolume, TradeCount, Revenue, TransactionFee, UserNew, BlockchainGas}
  {
  }

  /** The values of the records a bucket took in, in their order. */
  function TakenIn(records: seq<Record>, key: Key): seq<real> {
    if records == [] then []
    else
      var n := |records| - 1;
      TakenIn(records[..n], key)
      + if Belongs(records[n], key) && Accepted(records[..n], records[n], key) then [records[n].value] else []
  }

  /** One, halved `n` times. */
  function Halved(n: nat): real {
    if n == 0 then 1.0 else Halved(n - 1) / 2.0
  }

  /** Of `n` values the last one weighs a half, each one before half of what is left, and the first all that is left. */
  function Weight(i: nat, n: nat): real
    requires i < n
  {
    if i == 0 then Halved(n - 1) else Halved(n - i)
  }

  /** The first `k` of `n` weighted values, added up. */
  function WeightedSum(values: seq<real>, n: nat, k: nat): real
    requires k <= |values| && k <= n
  {
    if k == 0 then 0.0 else WeightedSum(values, n, k - 1) + Weight(k - 1, n) * values[k - 1]
  }

  lemma {:induction false} WeightsAddUpToOne(values: seq<real>, k: nat)
    requires 0 < k <= |values| && forall i :: 0 <= i < |values| ==> values[i] == 1.0
    ensures WeightedSum(values, |values|, k) == Halved(|values| - k)
    ensures k == |values| ==> WeightedSum(values, |values|, k) == 1.0
  {
    if k > 1 {
      WeightsAddUpToOne(values, k - 1);
    }
  }

  /** One more value halves the weights of those before it. */
  lemma {:induction false} OneMoreValue(values: seq<real>, x: real, k: nat)
    requires k <= |values|
    ensures WeightedSum(values + [x], |values| + 1, k) == WeightedSum(values, |values|, k) / 2.0
  {
    if k > 0 {
      OneMoreValue(values, x, k - 1);
      assert Weight(k - 1, |values| + 1) == Weight(k - 1, |values|) / 2.0;
      HalfOfProduct(Weight(k - 1, |values| + 1), Weight(k - 1, |values|), values[k - 1]);
    }
  }

  lemma HalfOfProduct(half: real, w: real, x: real)
    requires half == w / 2.0
    ensures half * x == w * x / 2.0
  {
  }

  lemma Averaged(values: seq<real>, x: real)
    ensures WeightedSum(values + [x], |values| + 1, |values| + 1) ==
            if values == [] then x else (WeightedSum(values, |values|, |values|) + x) / 2.0
  {
    OneMoreValue(values, x, |values|);
    var n := |values|;
    assert Halved(1) == Halved(0) / 2.0;
    assert Weight(n, n + 1) == if n == 0 then 1.0 else 0.5;
    var all := values + [x];
    assert all[n] == x;
    assert WeightedSum(all, n + 1, n + 1) == WeightedSum(all, n + 1, n) + Weight(n, n + 1) * all[n];
  }

  /** A latency or settlement time is the weighted sum of what its bucket took in. */
  lemma {:induction false} LatencyIsWeightedSum(records: seq<Record>, key: Key)
    requires key.metric.SystemLatency? || key.metric.SettlementTime?
    ensures key in After(records) <==> TakenIn(records, key) != []
    ensures var values := TakenIn(records, key);
            key in After(records) ==> After(records)[key].value == WeightedSum(values, |values|, |values|)
  {
    hide Belongs, UpsertUpTo, KeyOf, WeightedSum;
    if records != [] {
      var n := |records| - 1;
      RowNamesTheFirst(records[..n], key);
      LatencyIsWeightedSum(records[..n], key);
      OneRecord(After(records[..n]), records[n], key);
      Averaged(TakenIn(records[..n], key), records[n].value);
      assert TakenIn(records[..n], key) + [] == TakenIn(records[..n], key);
    }
  }

  /** A latency or settlement time stays between the least and the greatest value recorded for its bucket. */
  lemma {:induction false} HalvesStayBetween(records: seq<Record>, key: Key, lo: real, hi: real)
    requires key.metric.SystemLatency? || key.metric.SettlementTime?
    requires forall i :: 0 <= i < |records| && Belongs(records[i], key) ==> lo <= records[i].value <= hi
    ensures key in After(records) ==> lo <= After(records)[key].value <= hi
  {
    hide StartOf;
    if records != [] {
      var n := |records| - 1;
      forall i | 0 <= i < n && Belongs(records[..n][i], key) ensures lo <= records[..n][i].value <= hi {
        assert Belongs(records[i], key);
      }
      HalvesStayBetween(records[..n], key, lo, hi);
      OneRecord(After(records[..n]), records[n], key);
    }
  }

  // ---------------------------------------------------------------- coarse buckets are sums of fine ones

  /** The number of the minute, hour or day an instant falls into. */
  function IndexOf(t: int, g: Granularity): int {
    if g.Minute? then t / 60_000 else if g.Hour? then t / 3_600_000 else Day(t)
  }

  /** The bucket of minute, hour or day number `i`. */
  function FineKey(m: MetricType, g: Granularity, i: int): Key {
    Key(m, g, i * if g.Minute? then 60_000 else if g.Hour? then 3_600_000 else 86_400_000)
  }

  /** The sum of the `n` fine buckets from number `lo` on. */
  function SumOfBuckets(buckets: Buckets, m: MetricType, g: Granularity, lo: int, n: nat): real {
    if n == 0 then 0.0
    else SumOfBuckets(buckets, m, g, lo, n - 1) + Held(buckets, FineKey(m, g, lo + n - 1))
  }

  /** Does a record of a metric fall into a range of minutes, hours or days and get into its bucket there? */
  predicate AcceptedBetween(before: seq<Record>, r: Record, m: MetricType, g: Granularity, lo: int, n: int) {
    r.metric == m && lo <= IndexOf(r.at, g) < lo + n && Accepted(before, r, FineKey(m, g, IndexOf(r.at, g)))
  }

  /** The sum of those that do. */
  function MergedBetween(records: seq<Record>, m: MetricType, g: Granularity, lo: int, n: int): real {
    if records == [] then 0.0
    else
      var k := |records| - 1;
      MergedBetween(records[..k], m, g, lo, n)
      + if AcceptedBetween(records[..k], records[k], m, g, lo, n) then records[k].value else 0.0
  }

  lemma BelongsToFine(r: Record, m: MetricType, g: Granularity, i: int)
    requires g.Minute? || g.Hour? || g.OneDay?
    ensures Belongs(r, FineKey(m, g, i)) <==> r.metric == m && IndexOf(r.at, g) == i
  {
  }

  lemma {:induction false} OneMoreBucket(records: seq<Record>, m: MetricType, g: Granularity, lo: int, n: nat)
    requires g.Minute? || g.Hour? || g.OneDay?
    ensures MergedBetween(records, m, g, lo, n + 1) ==
            MergedBetween(records, m, g, lo, n) + Merged(records, FineKey(m, g, lo + n))
  {
    hide FineKey, IndexOf, Belongs, Accepted;
    if records != [] {
      var k := |records| - 1;
      OneMoreBucket(records[..k], m, g, lo, n);
      BelongsToFine(records[k], m, g, lo + n);
    }
  }

  lemma {:induction false} NothingBetween(records: seq<Record>, m: MetricType, g: Granularity, lo: int)
    ensures MergedBetween(records, m, g, lo, 0) == 0.0
  {
    if records != [] {
      NothingBetween(records[..|records| - 1], m, g, lo);
    }
  }

  lemma {:induction false} FineSum(records: seq<Record>, m: MetricType, g: Granularity, lo: int, n: nat)
    requires Summed(m) && (g.Minute? || g.Hour? || g.OneDay?)
    ensures SumOfBuckets(After(records), m, g, lo, n) == MergedBetween(records, m, g, lo, n)
  {
    hide After, Merged, MergedBetween, Held;
    if n == 0 {
      NothingBetween(records, m, g, lo);
    } else {
      FineSum(records, m, g, lo, n - 1);
      OneMoreBucket(records, m, g, lo, n - 1);
      HeldIsMerged(records, FineKey(m, g, lo + n - 1));
    }
  }

  /** The granularity a coarse bucket is made of. */
  function FineOf(g: Granularity): Granularity {
    if g.Hour? then Minute else if g.OneDay? then Hour else OneDay
  }

  /** The number of the first fine bucket of the coarse bucket an instant falls into. */
  function FirstFine(t: int, g: Granularity): int {
    if g.Hour? then t / 3_600_000 * 60
    else if g.OneDay? then Day(t) * 24
    else if g.Week? then Day(t) - WeekDayOf(Day(t))
    else First(MonthNo(Day(t)))
  }

  function FineCount(t: int, g: Granularity): int {
    if g.Hour? then 60 else if g.OneDay? then 24 else if g.Week? then 7 else Length(MonthNo(Day(t)))
  }

  lemma SameMonthIff(d: int, q: int)
    ensures First(MonthNo(d)) == First(q) <==> First(q) <= d < First(q) + Length(q)
  {
    hide First, Length, MonthNo, MonthOf, DateOf;
    var p := MonthNo(d);
    InMonth(d, p);
    NextFirst(p);
    NextFirst(q);
    if p < q {
      FirstsGrow(p + 1, q);
      LengthBound(p);
    } else if q < p {
      FirstsGrow(q + 1, p);
      LengthBound(q);
    }
  }

  /** Two instants fall into the same coarse bucket exactly when one lies in the fine range of the other's. */
  lemma SameBucketIff(t: int, t0: int, g: Granularity)
    requires !g.Minute?
    ensures StartOf(t, g) == StartOf(t0, g) <==>
            FirstFine(t0, g) <= IndexOf(t, FineOf(g)) < FirstFine(t0, g) + FineCount(t0, g)
  {
    hide First, Length, MonthNo, Day, WeekDayOf;
    match g {
      case Hour => SameHourIff(t, t0);
      case OneDay => SameDayIff(t, t0);
      case Week => SameWeekIff(Day(t), Day(t0));
      case Month => SameMonthIff(Day(t), MonthNo(Day(t0)));
    }
  }

  lemma SameHourIff(t: int, t0: int)
    ensures t / 3_600_000 == t0 / 3_600_000 <==> t0 / 3_600_000 * 60 <= t / 60_000 < t0 / 3_600_000 * 60 + 60
  {
    assert t / 60_000 / 60 == t / 3_600_000;
  }

  lemma SameDayIff(t: int, t0: int)
    ensures Day(t) == Day(t0) <==> Day(t0) * 24 <= t / 3_600_000 < Day(t0) * 24 + 24
  {
    assert t / 3_600_000 / 24 == Day(t);
  }

  lemma SameWeekIff(d: int, d0: int)
    ensures d - WeekDayOf(d) == d0 - WeekDayOf(d0) <==>
            d0 - WeekDayOf(d0) <= d < d0 - WeekDayOf(d0) + 7
  {
  }

  /** The bucket of an instant at a granularity. */
  function BucketAt(m: MetricType, g: Granularity, t: int): Key {
    Key(m, g, StartOf(t, g))
  }

  /** Is a coarse bucket the sum of its fine ones: the minutes of an hour, hours of a day, days of a week or month? */
  ghost predicate RolledUp(records: seq<Record>, m: MetricType, g: Granularity, t0: int) {
    LengthBound(MonthNo(Day(t0)));
    Held(After(records), BucketAt(m, g, t0)) ==
    SumOfBuckets(After(records), m, FineOf(g), FirstFine(t0, g), FineCount(t0, g))
  }

  /** Is record number `i`, when it belongs to a coarse bucket, taken in there and in its fine bucket, or in neither? */
  predicate TakenAlike(records: seq<Record>, i: nat, m: MetricType, g: Granularity, t0: int)
    requires i < |records|
  {
    var r := records[i];
    Belongs(r, BucketAt(m, g, t0)) && r.value != 0.0 ==>
      (Accepted(records[..i], r, KeyOf(r, g)) <==> Accepted(records[..i], r, KeyOf(r, FineOf(g))))
  }

  lemma FineKeyOf(r: Record, g: Granularity)
    requires !g.Minute?
    ensures KeyOf(r, FineOf(g)) == FineKey(r.metric, FineOf(g), IndexOf(r.at, FineOf(g)))
  {
  }

  lemma RolledUpIff(records: seq<Record>, m: MetricType, g: Granularity, t0: int)
    requires Summed(m) && !g.Minute?
    ensures FineCount(t0, g) > 0
    ensures RolledUp(records, m, g, t0) <==>
            Merged(records, BucketAt(m, g, t0)) ==
            MergedBetween(records, m, FineOf(g), FirstFine(t0, g), FineCount(t0, g))
  {
    hide After, Held, Merged, MergedBetween, StartOf, FirstFine, Length, MonthNo, SumOfBuckets;
    LengthBound(MonthNo(Day(t0)));
    HeldIsMerged(records, BucketAt(m, g, t0));
    FineSum(records, m, FineOf(g), FirstFine(t0, g), FineCount(t0, g));
  }

  /** One more record keeps a coarse bucket the sum of its fine ones exactly when both treat it alike. */
  lemma OneMoreRecord(records: seq<Record>, m: MetricType, g: Granularity, t0: int)
    requires Summed(m) && !g.Minute? && records != [] && RolledUp(records[..|records| - 1], m, g, t0)
    ensures RolledUp(records, m, g, t0) <==> TakenAlike(records, |records| - 1, m, g, t0)
  {
    hide StartOf, FineOf, FirstFine, FineCount, IndexOf, Accepted, FineKey, RolledUp;
    var k := |records| - 1;
    RolledUpIff(records[..k], m, g, t0);
    RolledUpIff(records, m, g, t0);
    SameBucketIff(records[k].at, t0, g);
    FineKeyOf(records[k], g);
  }

  /**
   Throughout a run every hour bucket of a summed metric is the sum of its minute buckets, every day
   bucket of its hours and every week and month bucket of its days, exactly when each record is taken
   in by both buckets or by neither.
   */
  lemma {:induction false} CoarseIsSumOfFineIff(records: seq<Record>, m: MetricType, g: Granularity, t0: int)
    requires Summed(m) && !g.Minute?
    ensures (forall n :: 0 <= n <= |records| ==> RolledUp(records[..n], m, g, t0)) <==>
            (forall i :: 0 <= i < |records| ==> TakenAlike(records, i, m, g, t0))
  {
    hide RolledUp, TakenAlike;
    assert records[..|records|] == records;
    if records == [] {
      RolledUpIff(records, m, g, t0);
    } else {
      var k := |records| - 1;
      var before := records[..k];
      CoarseIsSumOfFineIff(before, m, g, t0);
      assert forall n :: 0 <= n <= k ==> before[..n] == records[..n];
      forall i | 0 <= i < k ensures TakenAlike(before, i, m, g, t0) <==> TakenAlike(records, i, m, g, t0) {
        PrefixTakenAlike(records, k, i, m, g, t0);
      }
      if RolledUp(before, m, g, t0) {
        OneMoreRecord(records, m, g, t0);
      }
      assert before[..k] == before;
    }
  }

  lemma PrefixTakenAlike(records: seq<Record>, k: nat, i: nat, m: MetricType, g: Granularity, t0: int)
    requires i < k <= |records|
    ensures TakenAlike(records[..k], i, m, g, t0) <==> TakenAlike(records, i, m, g, t0)
  {
    assert records[..k][..i] == records[..i];
  }

  /** Records of a metric that all name the same asset and user, or none, are never refused. */
  lemma CoarseIsSumOfFine(
    records: seq<Record>, m: MetricType, g: Granularity, t0: int, assetCode: string, userId: string)
    requires Summed(m) && !g.Minute?
    requires forall r :: r in records && r.metric == m ==> r.assetCode == assetCode && r.userId == userId
    ensures RolledUp(records, m, g, t0)
  {
    hide RolledUp, StartOf;
    forall i | 0 <= i < |records| ensures TakenAlike(records, i, m, g, t0) {
      var r := records[i];
      assert r in records;
      if r.metric == m {
        OpenerIsOneOf(records[..i], KeyOf(r, g));
        OpenerIsOneOf(records[..i], KeyOf(r, FineOf(g)));
      }
    }
    CoarseIsSumOfFineIff(records, m, g, t0);
    assert records[..|records|] == records;
  }

  lemma {:induction false} OpenerIsOneOf(records: seq<Record>, key: Key)
    ensures Opener(records, key).Some? ==>
              Opener(records, key).value in records && Opener(records, key).value.metric == key.metric
  {
    hide StartOf;
    if records != [] {
      OpenerIsOneOf(records[..|records| - 1], key);
    }
  }

  /** Two records of a coarse bucket and two fine ones: when the later names another asset or user, one loses it. */
  lemma OtherAssetIsMissing(r: Record, s: Record, g: Granularity)
    requires Summed(r.metric) && !g.Minute? && s.metric == r.metric && s.value != 0.0
    requires KeyOf(r, g) == KeyOf(s, g) && KeyOf(r, FineOf(g)) != KeyOf(s, FineOf(g))
    requires (s.assetCode != "" && s.assetCode != r.assetCode) || (s.userId != "" && s.userId != r.userId)
    ensures !RolledUp([r, s], r.metric, g, r.at)
  {
    hide RolledUp, StartOf;
    var records := [r, s];
    assert records[..1] == [r] && [r][..0] == [];
    assert Opener([r], KeyOf(s, g)) == Some(r);
    assert Opener([r], KeyOf(s, FineOf(g))) == None;
    CoarseIsSumOfFine([r], r.metric, g, r.at, r.assetCode, r.userId);
    OneMoreRecord(records, r.metric, g, r.at);
  }

  /** Trades of two assets a minute apart: their hour is not the sum of its minutes. */
  lemma HourMissesAMinute()
    ensures !RolledUp([Record(TradeVolume, 1.0, 0, "XLM", ""), Record(TradeVolume, 2.0, 60_000, "USDC", "")],
                      TradeVolume, Hour, 0)
  {
    hide RolledUp;
    OtherAssetIsMissing(
      Record(TradeVolume, 1.0, 0, "XLM", ""), Record(TradeVolume, 2.0, 60_000, "USDC", ""), Hour);
  }
}
