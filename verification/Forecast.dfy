/** The least-squares line through values at 0, 1, 2, … and the forecast from it, over exact numbers. */
module Forecast {
  import opened Options
  import opened MonthNumbers
  import opened MonthLabels

  /** A product with a name: the inductions over sums treat products as atoms. */
  function Times(a: real, b: real): real {
    a * b
  }

  // ---------------------------------------------------------------- sums

  function SumX(n: nat): real {
    if n == 0 then 0.0 else SumX(n - 1) + (n - 1) as real
  }

  function SumX2(n: nat): real {
    if n == 0 then 0.0 else SumX2(n - 1) + Times((n - 1) as real, (n - 1) as real)
  }

  function SumY(y: seq<real>): real {
    if y == [] then 0.0 else SumY(y[..|y| - 1]) + y[|y| - 1]
  }

  function SumXY(y: seq<real>): real {
    if y == [] then 0.0 else SumXY(y[..|y| - 1]) + Times((|y| - 1) as real, y[|y| - 1])
  }

  /** The line at an index. */
  function LineAt(slope: real, intercept: real, i: nat): real {
    Times(slope, i as real) + intercept
  }

  /** The distance of value `i` from the line. */
  function Residual(y: seq<real>, slope: real, intercept: real, i: nat): real
    requires i < |y|
  {
    y[i] - LineAt(slope, intercept, i)
  }

  function SumOfResiduals(y: seq<real>, slope: real, intercept: real): real {
    if y == [] then 0.0
    else SumOfResiduals(y[..|y| - 1], slope, intercept) + Residual(y, slope, intercept, |y| - 1)
  }

  /** The inner product of the indices and the residuals. */
  function IndexDotResiduals(y: seq<real>, slope: real, intercept: real): real {
    if y == [] then 0.0
    else IndexDotResiduals(y[..|y| - 1], slope, intercept)
         + Times((|y| - 1) as real, Residual(y, slope, intercept, |y| - 1))
  }

  function SquaredError(y: seq<real>, slope: real, intercept: real): real {
    if y == [] then 0.0
    else
      var r := Residual(y, slope, intercept, |y| - 1);
      SquaredError(y[..|y| - 1], slope, intercept) + Times(r, r)
  }

  // ---------------------------------------------------------------- the line

  function Denominator(n: nat): real {
    n as real * SumX2(n) - SumX(n) * SumX(n)
  }

  lemma {:induction false} ClosedSums(n: nat)
    ensures 2.0 * SumX(n) == n as real * (n as real - 1.0)
    ensures 6.0 * SumX2(n) == n as real * (n as real - 1.0) * (2.0 * n as real - 1.0)
  {
    if n > 0 {
      ClosedSums(n - 1);
      var m := (n - 1) as real;
      assert n as real == m + 1.0;
      Grow2(m);
      Grow6(m);
    }
  }

  lemma Grow2(m: real)
    ensures m * (m - 1.0) + 2.0 * m == (m + 1.0) * m
  {
  }

  lemma Grow6(m: real)
    ensures m * (m - 1.0) * (2.0 * m - 1.0) + 6.0 * (m * m) == (m + 1.0) * m * (2.0 * (m + 1.0) - 1.0)
  {
  }

  /** The regression denominator of any history of two values or more is positive. */
  lemma DenominatorIsPositive(n: nat)
    requires 2 <= n
    ensures 12.0 * Denominator(n) == n as real * n as real * (n as real * n as real - 1.0)
    ensures 0.0 < Denominator(n)
  {
    hide SumX, SumX2;
    ClosedSums(n);
    ClosedDenominator(n as real, SumX(n), SumX2(n), Denominator(n));
    Positive(n as real);
  }

  lemma ClosedDenominator(n: real, s: real, s2: real, d: real)
    requires 2.0 * s == n * (n - 1.0) && 6.0 * s2 == n * (n - 1.0) * (2.0 * n - 1.0)
    requires d == n * s2 - s * s
    ensures 12.0 * d == n * n * (n * n - 1.0)
  {
    assert 12.0 * (n * s2) == 2.0 * n * (6.0 * s2);
    var m := n * (n - 1.0);
    assert 12.0 * (s * s) == 3.0 * ((2.0 * s) * (2.0 * s)) == 3.0 * (m * m);
    Expand(n);
  }

  lemma Expand(n: real)
    ensures 2.0 * n * (n * (n - 1.0) * (2.0 * n - 1.0)) - 3.0 * ((n * (n - 1.0)) * (n * (n - 1.0)))
         == n * n * (n * n - 1.0)
  {
  }

  lemma Positive(n: real)
    requires 2.0 <= n
    ensures 0.0 < n * n * (n * n - 1.0)
  {
    assert 4.0 <= n * n;
  }

  function Numerator(y: seq<real>): real {
    |y| as real * SumXY(y) - SumX(|y|) * SumY(y)
  }

  function Slope(y: seq<real>): real
    requires 2 <= |y|
  {
    DenominatorIsPositive(|y|);
    Numerator(y) / Denominator(|y|)
  }

  function Intercept(y: seq<real>): real
    requires 2 <= |y|
  {
    (SumY(y) - Slope(y) * SumX(|y|)) / |y| as real
  }

  // ---------------------------------------------------------------- the normal equations

  lemma {:induction false} ResidualsAddUp(y: seq<real>, a: real, b: real)
    ensures SumOfResiduals(y, a, b) == SumY(y) - Times(a, SumX(|y|)) - Times(b, |y| as real)
  {
    hide Times;
    if y != [] {
      var n := |y| - 1;
      ResidualsAddUp(y[..n], a, b);
      Step1(a, b, SumX(n), n as real);
    } else {
      ZeroTimes(a);
      ZeroTimes(b);
    }
  }

  lemma Step1(a: real, b: real, s: real, n: real)
    ensures Times(a, s + n) + Times(b, n + 1.0) == Times(a, s) + Times(b, n) + (Times(a, n) + b)
  {
  }

  lemma {:induction false} WeightedResidualsAddUp(y: seq<real>, a: real, b: real)
    ensures IndexDotResiduals(y, a, b) == SumXY(y) - Times(a, SumX2(|y|)) - Times(b, SumX(|y|))
  {
    hide Times;
    if y != [] {
      var n := |y| - 1;
      WeightedResidualsAddUp(y[..n], a, b);
      Step2(a, b, SumX2(n), SumX(n), n as real, y[n]);
    } else {
      ZeroTimes(a);
      ZeroTimes(b);
    }
  }

  lemma Step2(a: real, b: real, s2: real, s: real, n: real, v: real)
    ensures Times(n, v) - Times(a, s2 + Times(n, n)) - Times(b, s + n) ==
            Times(n, v - (Times(a, n) + b)) - Times(a, s2) - Times(b, s)
  {
  }

  /** The residuals of the line sum to zero and are orthogonal to the index. */
  lemma NormalEquations(y: seq<real>)
    requires 2 <= |y|
    ensures SumOfResiduals(y, Slope(y), Intercept(y)) == 0.0
    ensures IndexDotResiduals(y, Slope(y), Intercept(y)) == 0.0
  {
    hide Times, Slope, Intercept, Denominator, Numerator, SumX, SumX2, SumY, SumXY, SumOfResiduals, IndexDotResiduals;
    SlopeEquation(y);
    InterceptEquation(y);
    ResidualsAddUp(y, Slope(y), Intercept(y));
    WeightedResidualsAddUp(y, Slope(y), Intercept(y));
    BothVanish(y, Slope(y), Intercept(y));
  }

  lemma BothVanish(y: seq<real>, a: real, b: real)
    requires 2 <= |y| && a * Denominator(|y|) == Numerator(y) && b * |y| as real == SumY(y) - a * SumX(|y|)
    ensures SumY(y) - Times(a, SumX(|y|)) - Times(b, |y| as real) == 0.0
    ensures SumXY(y) - Times(a, SumX2(|y|)) - Times(b, SumX(|y|)) == 0.0
  {
    hide SumX, SumX2, SumY, SumXY;
    Solve(|y| as real, SumX(|y|), SumX2(|y|), SumY(y), SumXY(y), a, b);
  }

  lemma SlopeEquation(y: seq<real>)
    requires 2 <= |y|
    ensures Slope(y) * Denominator(|y|) == Numerator(y)
  {
    hide Numerator, Denominator;
    DenominatorIsPositive(|y|);
    Quotient(Numerator(y), Denominator(|y|));
  }

  lemma InterceptEquation(y: seq<real>)
    requires 2 <= |y|
    ensures Intercept(y) * |y| as real == SumY(y) - Slope(y) * SumX(|y|)
  {
    hide SumX, SumY, Slope;
    Quotient(SumY(y) - Slope(y) * SumX(|y|), |y| as real);
  }

  lemma Quotient(p: real, q: real)
    requires q != 0.0
    ensures p / q * q == p
  {
  }

  lemma Solve(n: real, s: real, s2: real, t: real, u: real, a: real, b: real)
    requires 0.0 < n && a * (n * s2 - s * s) == n * u - s * t && b * n == t - a * s
    ensures t - a * s - b * n == 0.0 && u - a * s2 - b * s == 0.0
  {
    assert n * (u - a * s2 - b * s) == 0.0 by {
      assert n * (b * s) == (t - a * s) * s;
    }
    NoZero(n, u - a * s2 - b * s);
  }

  lemma NoZero(n: real, v: real)
    requires n != 0.0 && n * v == 0.0
    ensures v == 0.0
  {
  }

  // ---------------------------------------------------------------- the least square

  /** Sum of the squared distances between two lines at the indices. */
  function LineDistance(n: nat, p: real, q: real): real {
    if n == 0 then 0.0
    else
      var d := Times(p, (n - 1) as real) + q;
      LineDistance(n - 1, p, q) + Times(d, d)
  }

  lemma {:induction false} ErrorOfOtherLine(y: seq<real>, a: real, b: real, c: real, d: real)
    ensures var cross := Times(a - c, IndexDotResiduals(y, a, b)) + Times(b - d, SumOfResiduals(y, a, b));
            SquaredError(y, c, d) == SquaredError(y, a, b) + LineDistance(|y|, a - c, b - d) + 2.0 * cross
  {
    hide Times;
    if y != [] {
      var n := |y| - 1;
      ErrorOfOtherLine(y[..n], a, b, c, d);
      StepError(y[n], a, b, c, d, n as real, IndexDotResiduals(y[..n], a, b), SumOfResiduals(y[..n], a, b));
    } else {
      ZeroTimes(a - c);
      ZeroTimes(b - d);
    }
  }

  lemma ZeroTimes(p: real)
    ensures Times(p, 0.0) == 0.0
  {
  }

  lemma StepError(v: real, a: real, b: real, c: real, d: real, x: real, w: real, s: real)
    ensures var r, o, e := v - (Times(a, x) + b), v - (Times(c, x) + d), Times(a - c, x) + (b - d);
            && Times(o, o) == Times(r, r) + Times(e, e) + 2.0 * (Times(a - c, Times(x, r)) + Times(b - d, r))
            && Times(a - c, w + Times(x, r)) == Times(a - c, w) + Times(a - c, Times(x, r))
            && Times(b - d, s + r) == Times(b - d, s) + Times(b - d, r)
  {
    var r, o, e := v - (Times(a, x) + b), v - (Times(c, x) + d), Times(a - c, x) + (b - d);
    assert o == r + e;
    Square(r, e);
    assert e * r == (a - c) * (x * r) + (b - d) * r;
  }

  lemma Square(r: real, e: real)
    ensures (r + e) * (r + e) == r * r + e * e + 2.0 * (e * r)
  {
  }

  lemma {:induction false} DistanceIsPositive(n: nat, p: real, q: real)
    ensures 0.0 <= LineDistance(n, p, q)
    ensures 2 <= n && LineDistance(n, p, q) == 0.0 ==> p == 0.0 && q == 0.0
  {
    hide Times;
    if n > 0 {
      DistanceIsPositive(n - 1, p, q);
      NotNegative(Times(p, (n - 1) as real) + q);
      if n == 2 {
        TwoPoints(p, q);
      }
    }
  }

  lemma NotNegative(d: real)
    ensures 0.0 <= Times(d, d) && (Times(d, d) == 0.0 <==> d == 0.0)
  {
    hide Times;
    if d == 0.0 {
      ZeroTimes(d);
    } else {
      SquareIsPositive(d);
    }
  }

  lemma SquareIsPositive(d: real)
    requires d != 0.0
    ensures 0.0 < Times(d, d)
  {
    hide Times;
    if d < 0.0 {
      TimesIsPositive(-d, -d);
      Opposite(d);
    } else {
      TimesIsPositive(d, d);
    }
  }

  lemma TimesIsPositive(a: real, b: real)
    requires 0.0 < a && 0.0 < b
    ensures 0.0 < Times(a, b)
  {
    ProductIsPositive(a, b);
  }

  lemma Opposite(d: real)
    ensures Times(-d, -d) == Times(d, d)
  {
  }

  lemma ProductIsPositive(a: real, b: real)
    requires 0.0 < a && 0.0 < b
    ensures 0.0 < a * b
  {
  }

  lemma TwoPoints(p: real, q: real)
    ensures LineDistance(2, p, q) == 0.0 ==> p == 0.0 && q == 0.0
  {
    hide Times;
    FirstPoints(p, q);
    assert LineDistance(0, p, q) == 0.0;
    assert LineDistance(1, p, q) == LineDistance(0, p, q) + Times(q, q);
    assert LineDistance(2, p, q) == LineDistance(1, p, q) + Times(p + q, p + q);
    NotNegative(q);
    NotNegative(p + q);
  }

  lemma FirstPoints(p: real, q: real)
    ensures Times(p, 0 as real) + q == q && Times(p, 1 as real) + q == p + q
  {
  }

  /** Every line has at least the squared error of the regression line, and no other line has the same. */
  lemma LeastSquares(y: seq<real>, c: real, d: real)
    requires 2 <= |y|
    ensures SquaredError(y, Slope(y), Intercept(y)) <= SquaredError(y, c, d)
    ensures SquaredError(y, c, d) == SquaredError(y, Slope(y), Intercept(y)) ==> c == Slope(y) && d == Intercept(y)
  {
    hide Slope, Intercept, SquaredError, LineDistance, IndexDotResiduals, SumOfResiduals;
    NormalEquations(y);
    ErrorOfOtherLine(y, Slope(y), Intercept(y), c, d);
    DistanceIsPositive(|y|, Slope(y) - c, Intercept(y) - d);
  }

  lemma {:induction false} ErrorIsNotNegative(y: seq<real>, c: real, d: real)
    ensures 0.0 <= SquaredError(y, c, d)
    ensures SquaredError(y, c, d) == 0.0 <==> forall i :: 0 <= i < |y| ==> Residual(y, c, d, i) == 0.0
  {
    hide Times;
    if y != [] {
      var n := |y| - 1;
      ErrorIsNotNegative(y[..n], c, d);
      NotNegative(Residual(y, c, d, n));
      assert forall i :: 0 <= i < n ==> Residual(y[..n], c, d, i) == Residual(y, c, d, i);
    }
  }

  /** Values on a line give that line back. */
  lemma LineIsRecovered(y: seq<real>, c: real, d: real)
    requires 2 <= |y| && forall i :: 0 <= i < |y| ==> y[i] == c * i as real + d
    ensures Slope(y) == c && Intercept(y) == d
  {
    hide Slope, Intercept, SquaredError;
    assert forall i :: 0 <= i < |y| ==> Residual(y, c, d, i) == 0.0;
    ErrorIsNotNegative(y, c, d);
    ErrorIsNotNegative(y, Slope(y), Intercept(y));
    LeastSquares(y, c, d);
  }

  /** Two values always lie on the line, so that the standard error is a quotient of two zeros. */
  lemma TwoValuesHaveNoError(y: seq<real>)
    requires |y| == 2
    ensures SquaredError(y, Slope(y), Intercept(y)) == 0.0
  {
    hide SquaredError;
    assert forall i :: 0 <= i < 2 ==> y[i] == (y[1] - y[0]) * i as real + y[0];
    LineIsRecovered(y, y[1] - y[0], y[0]);
    ErrorIsNotNegative(y, y[1] - y[0], y[0]);
  }

  // ---------------------------------------------------------------- how far the bounds are

  /** `Math.sqrt` on exact numbers. */
  ghost predicate IsRoot(sqrt: real -> real) {
    forall x: real :: 0.0 <= x ==> 0.0 <= sqrt(x) && Times(sqrt(x), sqrt(x)) == x
  }

  /** For two values it is a quotient of two zeros, and the bounds are no numbers. */
  function StandardError(sqrt: real -> real, y: seq<real>): Option<real>
    requires 2 <= |y|
  {
    if |y| == 2 then None else Some(sqrt(SquaredError(y, Slope(y), Intercept(y)) / (|y| as real - 2.0)))
  }

  /** The sum of the squared distances of the indices from their mean. */
  function Spread(n: nat): real
    requires 2 <= n
  {
    SumX2(n) - SumX(n) * SumX(n) / n as real
  }

  lemma SpreadIsPositive(n: nat)
    requires 2 <= n
    ensures Spread(n) == Denominator(n) / n as real && 0.0 < Spread(n)
  {
    hide SumX, SumX2;
    DenominatorIsPositive(n);
    ScaledSpread(n as real, SumX(n), SumX2(n), Denominator(n), Spread(n));
  }

  lemma ScaledSpread(n: real, s: real, s2: real, d: real, spread: real)
    requires 0.0 < n && 0.0 < d && d == n * s2 - s * s && spread == s2 - s * s / n
    ensures spread == d / n && 0.0 < spread
  {
    assert s * s / n * n == s * s;
    assert spread * n == d;
    assert d / n * n == d;
  }

  /** How far the index `i` steps after the last value lies from the mean of the indices. */
  function Distance(n: nat, i: nat): real
    requires 2 <= n
  {
    (n + i) as real - 1.0 - SumX(n) / n as real
  }

  /** How much wider the band is `i` steps after the last value. */
  function Widening(n: nat, i: nat): real
    requires 2 <= n
  {
    SpreadIsPositive(n);
    1.0 + 1.0 / n as real + Distance(n, i) * Distance(n, i) / Spread(n)
  }

  // ---------------------------------------------------------------- the rows

  datatype Point = Point(period: string, value: real)

  datatype Row = Row(
    period: string, actual: Option<real>, forecast: real, lowerBound: Option<real>, upperBound: Option<real>,
    confidence: real)

  datatype DateError = InvalidDate

  function Values(data: seq<Point>): (y: seq<real>)
    ensures |y| == |data| && forall i :: 0 <= i < |data| ==> y[i] == data[i].value
  {
    if data == [] then [] else [data[0].value] + Values(data[1..])
  }

  /** A row with its bounds at a distance from the line. */
  function Around(period: string, actual: Option<real>, forecast: real, half: Option<real>): Row {
    if half.None? then Row(period, actual, forecast, None, None, 0.95)
    else Row(period, actual, forecast, Some(forecast - half.value), Some(forecast + half.value), 0.95)
  }

  function HalfOf(standardError: Option<real>): Option<real> {
    match standardError case None => None case Some(e) => Some(Times(1.96, e))
  }

  function WiderHalf(standardError: Option<real>, factor: real): Option<real> {
    match standardError case None => None case Some(e) => Some(Times(Times(1.96, e), factor))
  }

  function HistoryHalf(sqrt: real -> real, y: seq<real>): Option<real>
    requires 2 <= |y|
  {
    HalfOf(StandardError(sqrt, y))
  }

  function FutureHalf(sqrt: real -> real, y: seq<real>, i: nat): Option<real>
    requires 2 <= |y|
  {
    WiderHalf(StandardError(sqrt, y), sqrt(Widening(|y|, i)))
  }

  function HistoryRow(sqrt: real -> real, data: seq<Point>, i: nat): Row
    requires 2 <= |data| && i < |data|
  {
    var y := Values(data);
    Around(data[i].period, Some(data[i].value), LineAt(Slope(y), Intercept(y), i), HistoryHalf(sqrt, y))
  }

  /** The row `i` months after the last one, which is labelled as month `q`. */
  function FutureRow(sqrt: real -> real, data: seq<Point>, q: nat, offset: int, i: nat): Row
    requires 2 <= |data| && 1 <= i && -86_400_000 < offset < 86_400_000
  {
    var y := Values(data);
    Around(FutureLabel(q, offset, i), None, LineAt(Slope(y), Intercept(y), |y| + i - 1), FutureHalf(sqrt, y, i))
  }

  function FutureLabel(q: nat, offset: int, i: nat): string
    requires 1 <= i && -86_400_000 < offset < 86_400_000
  {
    if 0 <= offset then EastOfGreenwich(q, i, offset); WriteLabel(ShownMonth(q, i, offset))
    else WestOfGreenwich(q, i, offset); WriteLabel(ShownMonth(q, i, offset))
  }

  ghost predicate IsHistory(sqrt: real -> real, data: seq<Point>, rows: seq<Row>)
    requires 2 <= |data|
  {
    |rows| == |data| && forall i :: 0 <= i < |data| ==> rows[i] == HistoryRow(sqrt, data, i)
  }

  /** The rows of the months after month `q`, in order. */
  ghost predicate IsFuture(sqrt: real -> real, data: seq<Point>, q: nat, offset: int, rows: seq<Row>)
    requires 2 <= |data| && -86_400_000 < offset < 86_400_000
  {
    forall i :: 0 <= i < |rows| ==> rows[i] == FutureRow(sqrt, data, q, offset, i + 1)
  }

  /** The labels of the future rows are the months that follow, exactly when no label is shown again. */
  lemma FutureLabelIff(q: nat, offset: int, i: nat)
    requires 1 <= i && -86_400_000 < offset < 86_400_000 && (q + i) / 12 <= 9999
    ensures FutureLabel(q, offset, i) == WriteLabel(q + i) <==>
            0 <= offset || Length(q - 1 + i) <= Length(q - 1)
  {
    hide ShownMonth, Length, WriteLabel;
    LabelIsRightIff(q, i, offset);
    if 0 <= offset {
      EastOfGreenwich(q, i, offset);
    } else {
      WestOfGreenwich(q, i, offset);
    }
    ReadsLabel(q + i);
    ReadsLabel(q - 1 + i);
  }

  // ---------------------------------------------------------------- the bounds widen

  lemma MeanOfIndices(n: nat)
    requires 2 <= n
    ensures 2.0 * (SumX(n) / n as real) == n as real - 1.0
  {
    hide SumX;
    ClosedSums(n);
    HalfOfProduct(SumX(n), n as real);
  }

  lemma HalfOfProduct(s: real, n: real)
    requires 2.0 * s == n * (n - 1.0) && 0.0 < n
    ensures 2.0 * (s / n) == n - 1.0
  {
    var half := s / n;
    assert half * n == s;
    assert n * (2.0 * half - (n - 1.0)) == 0.0;
    NoZero(n, 2.0 * half - (n - 1.0));
  }

  lemma SquareGrows(a: real, b: real, spread: real)
    requires 0.0 <= a < b && 0.0 < spread
    ensures a * a / spread < b * b / spread
  {
    ProductIsPositive(b - a, b + a);
    assert b * b - a * a == (b - a) * (b + a);
    Divide(a * a, b * b, spread);
  }

  lemma Divide(p: real, q: real, r: real)
    requires p < q && 0.0 < r
    ensures p / r < q / r
  {
  }

  lemma WideningGrows(n: nat, i: nat, j: nat)
    requires 2 <= n && 1 <= i < j
    ensures 1.0 < Widening(n, i) < Widening(n, j)
  {
    hide SumX, Spread;
    SpreadIsPositive(n);
    DistanceIs(n, i);
    DistanceIs(n, j);
    ShareIsPositive(n as real);
    WidensBy(1.0 / n as real, Distance(n, i), Distance(n, j), Spread(n));
  }

  lemma DistanceIs(n: nat, i: nat)
    requires 2 <= n
    ensures 2.0 * Distance(n, i) == n as real - 1.0 + 2.0 * i as real
  {
    hide SumX;
    MeanOfIndices(n);
  }

  lemma ShareIsPositive(n: real)
    requires 0.0 < n
    ensures 0.0 < 1.0 / n
  {
    Divide(0.0, 1.0, n);
  }

  lemma WidensBy(share: real, a: real, b: real, spread: real)
    requires 0.0 < spread && 0.0 < a < b
    ensures share < share + a * a / spread < share + b * b / spread
  {
    SquareGrows(a, b, spread);
    SquareGrows(0.0, a, spread);
  }

  /**
   With three values or more that are not all on one line, the bounds of every forecast month are
   farther apart than around the history, and the further ahead the farther.
   */
  lemma BandGrows(sqrt: real -> real, data: seq<Point>, q: nat, offset: int, k: nat, i: nat, j: nat)
    requires IsRoot(sqrt) && -86_400_000 < offset < 86_400_000
    requires 3 <= |data| && k < |data| && 1 <= i < j
    requires SquaredError(Values(data), Slope(Values(data)), Intercept(Values(data))) != 0.0
    ensures var h := HistoryRow(sqrt, data, k);
            var a, b := FutureRow(sqrt, data, q, offset, i), FutureRow(sqrt, data, q, offset, j);
            && h.lowerBound.Some? && h.upperBound.Some? && a.lowerBound.Some? && a.upperBound.Some?
            && b.lowerBound.Some? && b.upperBound.Some?
            && 0.0 < h.upperBound.value - h.lowerBound.value < a.upperBound.value - a.lowerBound.value
             < b.upperBound.value - b.lowerBound.value
  {
    hide Slope, Intercept, SquaredError, LineAt, FutureLabel, IsRoot, HistoryHalf, FutureHalf;
    HalvesGrow(sqrt, Values(data), i, j);
  }

  lemma HalvesGrow(sqrt: real -> real, y: seq<real>, i: nat, j: nat)
    requires IsRoot(sqrt) && 3 <= |y| && 1 <= i < j && SquaredError(y, Slope(y), Intercept(y)) != 0.0
    ensures var h, a, b := HistoryHalf(sqrt, y), FutureHalf(sqrt, y, i), FutureHalf(sqrt, y, j);
            h.Some? && a.Some? && b.Some? && 0.0 < h.value < a.value < b.value
  {
    hide Slope, Intercept, SquaredError, Widening, Times, IsRoot;
    var variance := SquaredError(y, Slope(y), Intercept(y)) / (|y| as real - 2.0);
    ErrorIsNotNegative(y, Slope(y), Intercept(y));
    Divide(0.0, SquaredError(y, Slope(y), Intercept(y)), |y| as real - 2.0);
    RootIsPositive(sqrt, variance);
    WideningGrows(|y|, i, j);
    RootsOfWidening(sqrt, Widening(|y|, i), Widening(|y|, j));
    TimesIsPositive(1.96, sqrt(variance));
    ScaleGrows(Times(1.96, sqrt(variance)), sqrt(Widening(|y|, i)), sqrt(Widening(|y|, j)));
  }

  lemma RootIsPositive(sqrt: real -> real, a: real)
    requires IsRoot(sqrt) && 0.0 < a
    ensures 0.0 < sqrt(a)
  {
    RootOfZero(sqrt);
    RootGrows(sqrt, 0.0, a);
  }

  lemma RootsOfWidening(sqrt: real -> real, u: real, v: real)
    requires IsRoot(sqrt) && 1.0 < u < v
    ensures 1.0 < sqrt(u) < sqrt(v)
  {
    hide IsRoot;
    RootOfOne(sqrt);
    RootGrows(sqrt, 1.0, u);
    RootGrows(sqrt, u, v);
  }

  lemma RootOfZero(sqrt: real -> real)
    requires IsRoot(sqrt)
    ensures sqrt(0.0) == 0.0
  {
    NotNegative(sqrt(0.0));
  }

  lemma RootOfOne(sqrt: real -> real)
    requires IsRoot(sqrt)
    ensures sqrt(1.0) == 1.0
  {
    var s := sqrt(1.0);
    assert Times(s, s) == 1.0;
    OneRoot(s);
  }

  lemma OneRoot(s: real)
    requires 0.0 <= s && Times(s, s) == 1.0
    ensures s == 1.0
  {
    assert (s - 1.0) * (s + 1.0) == 0.0;
    NoZero(s + 1.0, s - 1.0);
  }

  lemma RootGrows(sqrt: real -> real, a: real, b: real)
    requires IsRoot(sqrt) && 0.0 <= a < b
    ensures sqrt(a) < sqrt(b)
  {
    var s, t := sqrt(a), sqrt(b);
    assert Times(s, s) == a && Times(t, t) == b;
    SmallerSquare(s, t);
  }

  lemma SmallerSquare(s: real, t: real)
    requires 0.0 <= s && 0.0 <= t && Times(s, s) < Times(t, t)
    ensures s < t
  {
    if t < s {
      SquareGrows(t, s, 1.0);
    }
  }

  lemma ScaleGrows(b: real, u: real, v: real)
    requires 0.0 < b && 1.0 < u < v
    ensures b < Times(b, u) < Times(b, v)
  {
    ProductIsPositive(b, u - 1.0);
    ProductIsPositive(b, v - u);
  }

  // ---------------------------------------------------------------- the bounds, told on the rows

  /** How far a row's actual value lies from its forecast. */
  function Gap(r: Row): real {
    if r.actual.Some? then r.actual.value - r.forecast else 0.0
  }

  function SquaredGaps(rows: seq<Row>): real {
    if rows == [] then 0.0
    else SquaredGaps(rows[..|rows| - 1]) + Gap(rows[|rows| - 1]) * Gap(rows[|rows| - 1])
  }

  /** The squared distances of the indices below `k` from a mean, added up. */
  function SquaredDistances(k: nat, mean: real): real {
    if k == 0 then 0.0
    else SquaredDistances(k - 1, mean) + ((k - 1) as real - mean) * ((k - 1) as real - mean)
  }

  /** The bounds of a row lie around its forecast, with this squared distance between them. */
  ghost predicate Bounded(r: Row, square: real) {
    && r.lowerBound.Some? && r.upperBound.Some? && r.lowerBound.value <= r.upperBound.value
    && r.lowerBound.value + r.upperBound.value == 2.0 * r.forecast
    && (r.upperBound.value - r.lowerBound.value) * (r.upperBound.value - r.lowerBound.value) == square
  }

  /** Twice 1.96 standard errors, squared: the error is the root of the squared gaps over two less than their number. */
  ghost function SquaredWidth(history: seq<Row>): real
    requires 3 <= |history|
  {
    (2.0 * 1.96) * (2.0 * 1.96) * (SquaredGaps(history) / (|history| as real - 2.0))
  }

  /** By how much the squared width grows `i` months after `n` values: the mean of the indices is half of `n - 1`. */
  ghost function SquaredGrowth(n: nat, i: nat): real
    requires 2 <= n
  {
    var mean := (n as real - 1.0) / 2.0;
    var distance := (n + i) as real - 1.0 - mean;
    SpreadIsSquaredDistances(n);
    1.0 + 1.0 / n as real + distance * distance / SquaredDistances(n, mean)
  }

  ghost function WidthAhead(history: seq<Row>, i: nat): real
    requires 3 <= |history|
  {
    SquaredWidth(history) * SquaredGrowth(|history|, i)
  }

  lemma {:induction false} SquaredDistancesAre(k: nat, mean: real)
    ensures SquaredDistances(k, mean) == SumX2(k) - 2.0 * Times(mean, SumX(k)) + k as real * Times(mean, mean)
  {
    hide Times;
    if k > 0 {
      SquaredDistancesAre(k - 1, mean);
      var x := (k - 1) as real;
      OneMoreDistance(x, mean, SumX(k - 1));
      assert k as real == x + 1.0;
    } else {
      ZeroTimes(mean);
    }
  }

  lemma OneMoreDistance(x: real, mean: real, s: real)
    ensures (x - mean) * (x - mean) == Times(x, x) - 2.0 * (Times(mean, s + x) - Times(mean, s)) + Times(mean, mean)
    ensures (x + 1.0) * Times(mean, mean) == x * Times(mean, mean) + Times(mean, mean)
  {
  }

  lemma SpreadIsSquaredDistances(n: nat)
    requires 2 <= n
    ensures SquaredDistances(n, (n as real - 1.0) / 2.0) == Spread(n) && 0.0 < Spread(n)
    ensures SumX(n) / n as real == (n as real - 1.0) / 2.0
  {
    hide SumX, SumX2, SquaredDistances;
    var mean := (n as real - 1.0) / 2.0;
    MeanOfIndices(n);
    SpreadIsPositive(n);
    SquaredDistancesAre(n, mean);
    CentredSum(n as real, SumX(n), mean);
  }

  lemma CentredSum(n: real, s: real, mean: real)
    requires 0.0 < n && s / n == mean
    ensures - 2.0 * Times(mean, s) + n * Times(mean, mean) == - (s * s / n)
  {
    assert s == mean * n;
    assert s * s / n * n == s * s;
    assert n * (n * (mean * mean)) == s * s;
    NoZero(n, n * (mean * mean) - s * s / n);
    assert mean * s == n * (mean * mean);
  }

  lemma GrowthIsWidening(n: nat, i: nat)
    requires 2 <= n
    ensures Widening(n, i) == SquaredGrowth(n, i)
  {
    hide SumX, Spread, SquaredDistances;
    SpreadIsSquaredDistances(n);
  }

  /** The squared gaps of the history are the squared error of the line. */
  lemma {:induction false} GapsAreErrors(sqrt: real -> real, data: seq<Point>, rows: seq<Row>, k: nat)
    requires 2 <= |data| && IsHistory(sqrt, data, rows) && k <= |data|
    ensures SquaredGaps(rows[..k]) == SquaredError(Values(data)[..k], Slope(Values(data)), Intercept(Values(data)))
  {
    hide Slope, Intercept, LineAt, HistoryHalf, IsHistory, Residual, Gap, Values;
    SizeOfHistory(sqrt, data, rows);
    if k > 0 {
      var y := Values(data);
      GapsAreErrors(sqrt, data, rows, k - 1);
      assert rows[..k][..k - 1] == rows[..k - 1] && y[..k][..k - 1] == y[..k - 1];
      GapIsResidual(sqrt, data, rows, k - 1);
      ResidualOfPrefix(y, Slope(y), Intercept(y), k - 1);
    }
  }

  lemma ResidualOfPrefix(y: seq<real>, a: real, b: real, i: nat)
    requires i < |y|
    ensures Residual(y[..i + 1], a, b, i) == Residual(y, a, b, i)
  {
  }

  lemma GapIsResidual(sqrt: real -> real, data: seq<Point>, rows: seq<Row>, i: nat)
    requires 2 <= |data| && IsHistory(sqrt, data, rows) && i < |data|
    ensures Gap(rows[i]) == Residual(Values(data), Slope(Values(data)), Intercept(Values(data)), i)
  {
    hide Slope, Intercept, LineAt, HistoryHalf;
    assert rows[i] == HistoryRow(sqrt, data, i);
  }

  lemma WidthOf(e: real, square: real, half: real)
    requires 0.0 <= e && Times(e, e) == square && half == Times(1.96, e)
    ensures 0.0 <= half && (2.0 * half) * (2.0 * half) == (2.0 * 1.96) * (2.0 * 1.96) * square
  {
  }

  lemma WidthWidens(half: real, square: real, root: real, factor: real)
    requires 0.0 <= half && (2.0 * half) * (2.0 * half) == square && 0.0 <= root && Times(root, root) == factor
    ensures 0.0 <= Times(half, root) && (2.0 * Times(half, root)) * (2.0 * Times(half, root)) == square * factor
  {
    assert (2.0 * (half * root)) * (2.0 * (half * root)) == ((2.0 * half) * (2.0 * half)) * (root * root);
  }

  lemma AroundIsBounded(period: string, actual: Option<real>, forecast: real, half: real, square: real)
    requires 0.0 <= half && (2.0 * half) * (2.0 * half) == square
    ensures Bounded(Around(period, actual, forecast, Some(half)), square)
  {
    var r := Around(period, actual, forecast, Some(half));
    assert r.upperBound.value - r.lowerBound.value == 2.0 * half;
  }

  /** Around the `n` rows of the history the bounds lie at one distance, ahead of them at a growing one. */
  ghost predicate AllBounded(n: nat, rows: seq<Row>) {
    && 3 <= n <= |rows|
    && (forall i :: 0 <= i < n ==> Bounded(rows[i], SquaredWidth(rows[..n])))
    && (forall i :: n <= i < |rows| ==> Bounded(rows[i], WidthAhead(rows[..n], i - n + 1)))
  }

  /**
   For three values or more every row has its bounds around its forecast. Around the history their
   squared distance is that of twice 1.96 standard errors, and ahead it is as many times more as the
   month is away.
   */
  lemma BoundsOfRows(sqrt: real -> real, data: seq<Point>, q: nat, offset: int, history: seq<Row>, future: seq<Row>)
    requires IsRoot(sqrt) && 3 <= |data| && -86_400_000 < offset < 86_400_000
    requires IsHistory(sqrt, data, history) && IsFuture(sqrt, data, q, offset, future)
    ensures AllBounded(|data|, history + future)
  {
    hide IsRoot, IsHistory, IsFuture, Bounded, SquaredWidth, WidthAhead;
    SizeOfHistory(sqrt, data, history);
    var n, rows := |data|, history + future;
    assert rows[..n] == history;
    forall i | 0 <= i < n ensures Bounded(rows[i], SquaredWidth(rows[..n])) {
      HistoryIsBounded(sqrt, data, history, i);
    }
    forall i | n <= i < |rows| ensures Bounded(rows[i], WidthAhead(rows[..n], i - n + 1)) {
      assert rows[i] == future[i - n];
      FutureIsBounded(sqrt, data, q, offset, history, future, i - n);
    }
  }

  lemma BoundsOfHistory(sqrt: real -> real, data: seq<Point>, offset: int, history: seq<Row>)
    requires -86_400_000 < offset < 86_400_000 && 2 <= |data| && IsHistory(sqrt, data, history)
    ensures 3 <= |data| && IsRoot(sqrt) ==> AllBounded(|data|, history)
  {
    hide IsRoot, IsHistory, IsFuture, AllBounded;
    if 3 <= |data| && IsRoot(sqrt) {
      NothingAhead(sqrt, data, offset);
      BoundsOfRows(sqrt, data, 0, offset, history, []);
      assert history + [] == history;
    }
  }

  lemma NothingAhead(sqrt: real -> real, data: seq<Point>, offset: int)
    requires -86_400_000 < offset < 86_400_000 && 2 <= |data|
    ensures IsFuture(sqrt, data, 0, offset, [])
  {
  }

  lemma SizeOfHistory(sqrt: real -> real, data: seq<Point>, history: seq<Row>)
    requires 2 <= |data| && IsHistory(sqrt, data, history)
    ensures |history| == |data|
  {
    hide Slope, Intercept, LineAt, HistoryHalf;
  }

  lemma HalfOfHistory(sqrt: real -> real, data: seq<Point>, history: seq<Row>) returns (half: real)
    requires IsRoot(sqrt) && 3 <= |data| && IsHistory(sqrt, data, history)
    ensures |history| == |data|
    ensures StandardError(sqrt, Values(data)) != None && half == Times(1.96, StandardError(sqrt, Values(data)).value)
    ensures 0.0 <= half && (2.0 * half) * (2.0 * half) == SquaredWidth(history)
  {
    hide Slope, Intercept, LineAt, IsHistory, SquaredError, SquaredGaps, Times;
    var y := Values(data);
    var sse := SquaredError(y, Slope(y), Intercept(y));
    SizeOfHistory(sqrt, data, history);
    GapsAreErrors(sqrt, data, history, |data|);
    assert y[..|data|] == y && history[..|data|] == history;
    ErrorIsNotNegative(y, Slope(y), Intercept(y));
    NotNegativeQuotient(sse, |y| as real - 2.0);
    var e := sqrt(sse / (|y| as real - 2.0));
    half := Times(1.96, e);
    WidthOf(e, sse / (|y| as real - 2.0), half);
  }

  lemma NotNegativeQuotient(p: real, q: real)
    requires 0.0 <= p && 0.0 < q
    ensures 0.0 <= p / q
  {
  }

  lemma HistoryIsBounded(sqrt: real -> real, data: seq<Point>, history: seq<Row>, i: nat)
    requires IsRoot(sqrt) && 3 <= |data| && IsHistory(sqrt, data, history) && i < |history|
    ensures Bounded(history[i], SquaredWidth(history))
  {
    hide Slope, Intercept, LineAt, IsRoot, SquaredWidth, Bounded, StandardError, Around;
    var half := HalfOfHistory(sqrt, data, history);
    AroundIsBounded(data[i].period, Some(data[i].value), history[i].forecast, half, SquaredWidth(history));
    HistoryForecast(sqrt, data, history, i);
  }

  lemma HistoryForecast(sqrt: real -> real, data: seq<Point>, history: seq<Row>, i: nat)
    requires 2 <= |data| && IsHistory(sqrt, data, history) && i < |history|
    ensures history[i] == HistoryRow(sqrt, data, i)
    ensures history[i] ==
            Around(data[i].period, Some(data[i].value), history[i].forecast, HistoryHalf(sqrt, Values(data)))
  {
    hide Slope, Intercept, LineAt, HistoryHalf;
  }

  lemma FutureForecast(sqrt: real -> real, data: seq<Point>, q: nat, offset: int, future: seq<Row>, i: nat)
    requires 2 <= |data| && -86_400_000 < offset < 86_400_000
    requires IsFuture(sqrt, data, q, offset, future) && i < |future|
    ensures future[i] == Around(FutureLabel(q, offset, i + 1), None, future[i].forecast,
                                FutureHalf(sqrt, Values(data), i + 1))
  {
    hide Slope, Intercept, LineAt, FutureHalf, FutureLabel;
  }

  lemma FutureIsBounded(
    sqrt: real -> real, data: seq<Point>, q: nat, offset: int, history: seq<Row>, future: seq<Row>, i: nat)
    requires IsRoot(sqrt) && 3 <= |data| && -86_400_000 < offset < 86_400_000
    requires IsHistory(sqrt, data, history) && IsFuture(sqrt, data, q, offset, future) && i < |future|
    ensures |history| == |data|
    ensures Bounded(future[i], WidthAhead(history, i + 1))
  {
    hide Slope, Intercept, LineAt, SquaredWidth, Bounded, StandardError, Around, IsHistory, IsFuture, FutureLabel,
      Widening, SquaredGrowth, Times;
    var half := HalfOfHistory(sqrt, data, history);
    var n := |history|;
    GrowthIsWidening(n, i + 1);
    WideningGrows(n, i + 1, i + 2);
    var root := sqrt(Widening(n, i + 1));
    assert 0.0 <= root && Times(root, root) == Widening(n, i + 1);
    WidthWidens(half, SquaredWidth(history), root, SquaredGrowth(n, i + 1));
    FutureForecast(sqrt, data, q, offset, future, i);
    assert |Values(data)| == n;
    assert FutureHalf(sqrt, Values(data), i + 1) == Some(Times(half, root));
    AroundIsBounded(FutureLabel(q, offset, i + 1), None, future[i].forecast, Times(half, root),
                    WidthAhead(history, i + 1));
  }

  /** The forecasts of all rows lie on one line, in steps of one month. */
  ghost predicate OnOneLine(rows: seq<Row>) {
    forall i :: 0 <= i < |rows| && 2 <= |rows| ==>
                  rows[i].forecast == rows[0].forecast + i as real * (rows[1].forecast - rows[0].forecast)
  }

  lemma LineInSteps(history: seq<Row>, future: seq<Row>, a: real, b: real)
    requires forall i :: 0 <= i < |history| ==> history[i].forecast == LineAt(a, b, i)
    requires forall i :: 0 <= i < |future| ==> future[i].forecast == LineAt(a, b, |history| + i)
    ensures OnOneLine(history + future)
  {
    hide LineAt;
    FirstTwo(a, b);
    var rows := history + future;
    assert forall i :: 0 <= i < |rows| ==> rows[i].forecast == LineAt(a, b, i);
    forall i | 0 <= i < |rows| && 2 <= |rows|
      ensures rows[i].forecast == rows[0].forecast + i as real * (rows[1].forecast - rows[0].forecast)
    {
      AtIndex(a, b, i);
      assert rows[0].forecast == LineAt(a, b, 0) && rows[1].forecast == LineAt(a, b, 1);
    }
  }

  lemma FirstTwo(a: real, b: real)
    ensures LineAt(a, b, 0) == b && LineAt(a, b, 1) - LineAt(a, b, 0) == a
  {
  }

  lemma AtIndex(a: real, b: real, i: nat)
    ensures LineAt(a, b, i) == b + i as real * a
  {
  }

  /** A row without bounds. */
  ghost predicate Open(r: Row) {
    r.lowerBound == None && r.upperBound == None
  }

  /**
   The rows of the history carry the data, those of the months ahead no value, and all their forecasts
   lie on one line. No line comes closer to the data, and with two values there are no bounds.
   */
  lemma ForecastsAreALine(
    sqrt: real -> real, data: seq<Point>, q: nat, offset: int, history: seq<Row>, future: seq<Row>, c: real, d: real)
    requires 2 <= |data| && -86_400_000 < offset < 86_400_000
    requires IsHistory(sqrt, data, history) && IsFuture(sqrt, data, q, offset, future)
    ensures |history| == |data| && OnOneLine(history + future)
    ensures forall i :: 0 <= i < |data| ==>
                          history[i].period == data[i].period && history[i].actual == Some(data[i].value)
    ensures forall i :: 0 <= i < |future| ==> future[i].actual == None
    ensures SquaredGaps(history) <= SquaredError(Values(data), c, d)
    ensures forall r :: r in history + future ==> r.confidence == 0.95 && (|data| == 2 ==> Open(r))
  {
    hide IsHistory, IsFuture, SquaredError, SquaredGaps, OnOneLine;
    SizeOfHistory(sqrt, data, history);
    NoLineIsCloser(sqrt, data, history, c, d);
    FieldsOfHistory(sqrt, data, history);
    FieldsOfFuture(sqrt, data, q, offset, future);
    LineInSteps(history, future, Slope(Values(data)), Intercept(Values(data)));
    hide Slope, Intercept, LineAt, Values;
  }

  lemma NoLineIsCloser(sqrt: real -> real, data: seq<Point>, history: seq<Row>, c: real, d: real)
    requires 2 <= |data| && IsHistory(sqrt, data, history)
    ensures SquaredGaps(history) <= SquaredError(Values(data), c, d)
  {
    hide Slope, Intercept, IsHistory, SquaredError, SquaredGaps, Values;
    var y := Values(data);
    SizeOfHistory(sqrt, data, history);
    GapsAreErrors(sqrt, data, history, |data|);
    assert y[..|data|] == y && history[..|data|] == history;
    LeastSquares(y, c, d);
  }

  lemma FieldsOfHistory(sqrt: real -> real, data: seq<Point>, history: seq<Row>)
    requires 2 <= |data| && IsHistory(sqrt, data, history)
    ensures forall i :: 0 <= i < |data| ==>
                          && history[i].period == data[i].period && history[i].actual == Some(data[i].value)
                          && history[i].forecast == LineAt(Slope(Values(data)), Intercept(Values(data)), i)
                          && history[i].confidence == 0.95 && (|data| == 2 ==> Open(history[i]))
  {
    hide Slope, Intercept, LineAt;
  }

  lemma FieldsOfFuture(sqrt: real -> real, data: seq<Point>, q: nat, offset: int, future: seq<Row>)
    requires 2 <= |data| && -86_400_000 < offset < 86_400_000
    requires IsFuture(sqrt, data, q, offset, future)
    ensures forall i :: 0 <= i < |future| ==>
                          && future[i].actual == None
                          && future[i].forecast == LineAt(Slope(Values(data)), Intercept(Values(data)), |data| + i)
                          && future[i].confidence == 0.95 && (|data| == 2 ==> Open(future[i]))
  {
    hide Slope, Intercept, LineAt, FutureRow;
    forall i | 0 <= i < |future|
      ensures && future[i].actual == None
              && future[i].forecast == LineAt(Slope(Values(data)), Intercept(Values(data)), |data| + i)
              && future[i].confidence == 0.95 && (|data| == 2 ==> Open(future[i]))
    {
      FieldsAhead(sqrt, data, q, offset, i);
    }
  }

  lemma FieldsAhead(sqrt: real -> real, data: seq<Point>, q: nat, offset: int, i: nat)
    requires 2 <= |data| && -86_400_000 < offset < 86_400_000
    ensures var r := FutureRow(sqrt, data, q, offset, i + 1);
            && r.actual == None && r.confidence == 0.95 && (|data| == 2 ==> Open(r))
            && r.forecast == LineAt(Slope(Values(data)), Intercept(Values(data)), |data| + i)
  {
    hide Slope, Intercept, LineAt, FutureLabel, FutureHalf, Values;
    assert |data| == 2 ==> FutureHalf(sqrt, Values(data), i + 1) == None by {
      NoHalfForTwo(sqrt, Values(data), i + 1);
    }
  }

  lemma NoHalfForTwo(sqrt: real -> real, y: seq<real>, i: nat)
    requires 2 <= |y|
    ensures |y| == 2 ==> FutureHalf(sqrt, y, i) == None
  {
    hide Slope, Intercept, SquaredError, Widening;
  }

  // ---------------------------------------------------------------- the method

  /** The first pushing loop. */
  method HistoryRows(sqrt: real -> real, data: seq<Point>) returns (result: seq<Row>)
    requires 2 <= |data|
    ensures |result| == |data| && IsHistory(sqrt, data, result)
  {
    hide Slope, Intercept, StandardError, HalfOf, LineAt, Around;
    var y := Values(data);
    var slope, intercept := Slope(y), Intercept(y);
    var half := HalfOf(StandardError(sqrt, y));
    result := [];
    for i := 0 to |y|
      invariant |result| == i && forall k :: 0 <= k < i ==> result[k] == HistoryRow(sqrt, data, k)
    {
      result := result + [Around(data[i].period, Some(data[i].value), LineAt(slope, intercept, i), half)];
    }
  }

  /** The second one. */
  method FutureRows(sqrt: real -> real, data: seq<Point>, q: nat, offset: int, forecastMonths: nat)
    returns (result: seq<Row>)
    requires 2 <= |data| && -86_400_000 < offset < 86_400_000
    ensures |result| == forecastMonths && IsFuture(sqrt, data, q, offset, result)
  {
    hide Slope, Intercept, StandardError, WiderHalf, LineAt, Around, Widening, FutureLabel;
    var y := Values(data);
    var n := |y|;
    var slope, intercept := Slope(y), Intercept(y);
    var standardError := StandardError(sqrt, y);
    result := [];
    for i := 1 to forecastMonths + 1
      invariant |result| == i - 1 && IsFuture(sqrt, data, q, offset, result)
    {
      var forecastValue := LineAt(slope, intercept, n + i - 1);
      var half := WiderHalf(standardError, sqrt(Widening(n, i)));
      result := result + [Around(FutureLabel(q, offset, i), None, forecastValue, half)];
    }
  }

  /**
   linearForecast; local time is `offset` milliseconds ahead of universal time. The date of the last
   label is only looked at when there is a month to forecast.
   */
  method LinearForecast(sqrt: real -> real, offset: int, data: seq<Point>, forecastMonths: int)
    returns (r: Result<seq<Row>, DateError>)
    requires -86_400_000 < offset < 86_400_000
    ensures |data| < 2 ==> r == Ok([])
    ensures 2 <= |data| && forecastMonths < 1 ==> r.Ok? && IsHistory(sqrt, data, r.value)
    ensures 2 <= |data| && 1 <= forecastMonths ==>
              match ReadLabel(data[|data| - 1].period)
              case None => r == Err(InvalidDate)
              case Some(q) =>
                && r.Ok? && |r.value| == |data| + forecastMonths
                && IsHistory(sqrt, data, r.value[..|data|])
                && IsFuture(sqrt, data, q, offset, r.value[|data|..])
    ensures r.Ok? && 3 <= |data| && IsRoot(sqrt) ==> AllBounded(|data|, r.value)
  {
    hide IsHistory, IsFuture, ReadLabel, IsRoot, AllBounded;
    if |data| < 2 {
      return Ok([]);
    }
    var history := HistoryRows(sqrt, data);
    if forecastMonths < 1 {
      BoundsOfHistory(sqrt, data, offset, history);
      return Ok(history);
    }
    var last := ReadLabel(data[|data| - 1].period);
    if last.None? {
      return Err(InvalidDate);
    }
    var future := FutureRows(sqrt, data, last.value, offset, forecastMonths);
    if 3 <= |data| && IsRoot(sqrt) {
      BoundsOfRows(sqrt, data, last.value, offset, history, future);
    }
    r := Ok(history + future);
    assert r.value[..|data|] == history && r.value[|data|..] == future;
  }
}
