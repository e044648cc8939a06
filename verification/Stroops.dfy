/** Amounts with seven decimals as integers of 1e-7 (stroops), read and written exactly. */
module Stroops {
  import opened Options
  import opened Text

  /** `BigInt(text)` on decimal text; `None` is its SyntaxError. */
  function BigInt(text: string): Option<int> {
    var s := Trim(text);
    if s == "" then Some(0)
    else
      var digits := if s[0] == '-' || s[0] == '+' then s[1..] else s;
      if !IsNumeral(digits) then None
      else Some(if s[0] == '-' then 0 - Value(digits) else Value(digits) as int)
  }

  /** `text.replace('-', '')`: only the first one goes. */
  function DropMinus(text: string): string {
    var i := IndexOf(text, '-');
    if i == |text| then text else text[..i] + text[i + 1..]
  }

  /** The decimals that count: the first `d`, filled up with zeros. */
  function Kept(fraction: string, d: nat): string {
    (fraction + Zeros(d))[..d]
  }

  function Signed(negative: bool, magnitude: int): int {
    if negative then -magnitude else magnitude
  }

  /** What the two parts around the point amount to, with `d` decimals. */
  function Combine(intPart: string, fracPart: string, d: nat): Option<int> {
    match (BigInt(DropMinus(intPart)), BigInt(Kept(fracPart, d)))
    case (Some(absInt), Some(frac)) => Some(Signed(intPart != "" && intPart[0] == '-', absInt * 10_000_000 + frac))
    case _ => None
  }

  function Read(amount: string, d: nat): Option<int> {
    var parts := Split(Trim(amount), '.');
    Combine(parts[0], if |parts| > 1 then parts[1] else "", d)
  }

  function Write(units: int, d: nat): string {
    var abs := if units < 0 then -units else units;
    (if units < 0 then "-" else "") + Decimal(abs / 10_000_000) + "." + PadStart(Decimal(abs % 10_000_000), d)
  }

  function ToStroops(amount: string): Option<int> {
    Read(amount, 7)
  }

  function FromStroops(stroops: int): string {
    Write(stroops, 7)
  }

  /** A decimal numeral: sign, digits, and a point with more digits. */
  function Numeral(negative: bool, whole: string, point: bool, fraction: string): string {
    (if negative then "-" else "") + whole + (if point then "." else "") + fraction
  }

  /** The canonical numerals of `d` decimals: no needless zero in front, and no negative zero. */
  ghost predicate Canonical(s: string, d: nat) {
    exists negative, whole, fraction :: CanonicalParts(s, d, negative, whole, fraction)
  }

  ghost predicate CanonicalParts(s: string, d: nat, negative: bool, whole: string, fraction: string) {
    && s == Numeral(negative, whole, true, fraction)
    && IsPlain(whole) && AllDigits(fraction) && |fraction| == d
    && (negative ==> Value(whole) != 0 || Value(fraction) != 0)
  }

  // ---------------------------------------------------------------- reading

  lemma DigitsHaveNo(s: string)
    requires AllDigits(s)
    ensures NoSpace(s) && '.' !in s && '-' !in s && '+' !in s
  {
  }

  lemma BigIntOfDigits(s: string)
    requires AllDigits(s)
    ensures BigInt(s) == Some(Value(s))
  {
    DigitsHaveNo(s);
    TrimNoSpace(s);
  }

  lemma DropMinusOfInt(negative: bool, whole: string)
    requires AllDigits(whole)
    ensures DropMinus((if negative then "-" else "") + whole) == whole
  {
    DigitsHaveNo(whole);
    if negative {
      IndexOfAt("", '-', whole);
      assert "" + ['-'] + whole == "-" + whole;
      assert ("-" + whole)[..0] + ("-" + whole)[1..] == whole;
    } else {
      IndexOfNone(whole, '-');
      assert "" + whole == whole;
    }
  }

  lemma SplitNumeral(negative: bool, whole: string, point: bool, fraction: string)
    requires AllDigits(whole) && AllDigits(fraction) && (!point ==> fraction == "")
    ensures var text, head := Numeral(negative, whole, point, fraction), (if negative then "-" else "") + whole;
            Trim(text) == text && Split(text, '.') == if point then [head, fraction] else [head]
  {
    var text, head := Numeral(negative, whole, point, fraction), (if negative then "-" else "") + whole;
    DigitsHaveNo(whole);
    DigitsHaveNo(fraction);
    assert NoSpace(text);
    TrimNoSpace(text);
    assert '.' !in head;
    if point {
      assert text == head + ['.'] + fraction;
      SplitAt(head, '.', fraction);
      SplitNone(fraction, '.');
    } else {
      assert text == head;
      SplitNone(head, '.');
    }
  }

  /** `q` is the whole part of `v * scale / p`. */
  ghost predicate Truncates(v: int, scale: int, p: int, q: int) {
    q * p <= v * scale < q * p + p
  }

  lemma {:induction false} ZerosPrefix(n: nat, k: nat)
    requires k <= n
    ensures Zeros(n)[..k] == Zeros(k)
  {
    if k < n {
      ZerosPrefix(n - 1, k);
    }
  }

  lemma {:induction false} Pow10Adds(a: nat, b: nat)
    ensures Pow10(a + b) == Pow10(a) * Pow10(b)
  {
    if b > 0 {
      Pow10Adds(a, b - 1);
      Shift(Pow10(a), Pow10(b - 1));
    }
  }

  lemma Associate(a: int, b: int, c: int)
    ensures a * b * c == a * (b * c)
  {
  }

  /** The decimals kept are the fraction, scaled and cut off. */
  lemma KeptTruncates(fraction: string, d: nat)
    requires AllDigits(fraction)
    ensures AllDigits(Kept(fraction, d))
    ensures Truncates(Value(fraction), Pow10(d), Pow10(|fraction|), Value(Kept(fraction, d)))
  {
    if |fraction| <= d {
      FewDigits(fraction, d - |fraction|);
    } else {
      var kept, rest := fraction[..d], fraction[d..];
      assert Kept(fraction, d) == kept && fraction == kept + rest;
      ManyDigits(kept, rest);
    }
  }

  lemma FewDigits(fraction: string, missing: nat)
    requires AllDigits(fraction)
    ensures var kept := Kept(fraction, |fraction| + missing);
            AllDigits(kept) && Value(kept) == Value(fraction) * Pow10(missing)
            && Truncates(Value(fraction), Pow10(|fraction| + missing), Pow10(|fraction|), Value(kept))
  {
    var n := |fraction|;
    ZerosPrefix(n + missing, missing);
    assert Kept(fraction, n + missing) == fraction + Zeros(missing);
    ValueConcat(fraction, Zeros(missing));
    ZerosValue(missing);
    Pow10Adds(missing, n);
    Associate(Value(fraction), Pow10(missing), Pow10(n));
  }

  lemma ManyDigits(kept: string, rest: string)
    requires AllDigits(kept) && AllDigits(rest)
    ensures AllDigits(kept + rest)
    ensures Truncates(Value(kept + rest), Pow10(|kept|), Pow10(|kept + rest|), Value(kept))
  {
    ValueConcat(kept, rest);
    ValueBound(rest);
    Pow10Adds(|kept|, |rest|);
    CutOff(Value(kept), Value(rest), Pow10(|rest|), Pow10(|kept|));
  }

  lemma CutOff(a: int, r: int, p: int, scale: int)
    requires 0 <= r < p && 0 < scale
    ensures Truncates(a * p + r, scale, scale * p, a)
  {
    assert (a * p + r) * scale == a * (scale * p) + r * scale;
    assert 0 <= r * scale < p * scale;
  }

  lemma TruncatesSum(w: int, f: int, scale: int, p: int, q: int)
    requires Truncates(f, scale, p, q)
    ensures Truncates(w * p + f, scale, p, w * scale + q)
  {
    assert (w * p + f) * scale == w * p * scale + f * scale;
    assert (w * scale + q) * p == w * scale * p + q * p;
    assert w * p * scale == w * scale * p;
  }

  lemma MulAtLeast(a: int, b: int, m: int)
    requires a <= b && 0 <= m
    ensures a * m <= b * m
  {
  }

  lemma QuotientIs(x: int, m: int, q: int)
    requires 0 < m && q * m <= x < q * m + m
    ensures x / m == q && x % m == x - q * m
  {
    var d := x / m;
    assert d * m <= x < d * m + m;
    if d < q {
      MulAtLeast(d + 1, q, m);
    } else if d > q {
      MulAtLeast(q + 1, d, m);
    }
  }

  lemma CombineIs(intPart: string, fracPart: string, d: nat, negative: bool, w: int, f: int, m: int)
    requires m == w * 10_000_000 + f
    requires BigInt(DropMinus(intPart)) == Some(w) && BigInt(Kept(fracPart, d)) == Some(f)
    requires negative <==> intPart != "" && intPart[0] == '-'
    ensures Combine(intPart, fracPart, d) == Some(Signed(negative, m))
  {
  }

  lemma CombinesDigits(head: string, negative: bool, whole: string, fraction: string, d: nat, w: int, f: int, m: int)
    requires m == w * 10_000_000 + f
    requires head == (if negative then "-" else "") + whole
    requires AllDigits(whole) && AllDigits(Kept(fraction, d)) && w == Value(whole) && f == Value(Kept(fraction, d))
    ensures Combine(head, fraction, d) == Some(Signed(negative, m))
  {
    DropMinusOfInt(negative, whole);
    BigIntOfDigits(whole);
    BigIntOfDigits(Kept(fraction, d));
    assert negative <==> head != "" && head[0] == '-' by {
      assert whole != "" ==> IsDigit(whole[0]);
    }
    CombineIs(head, fraction, d, negative, w, f, m);
  }

  lemma ReadIs(s: string, d: nat, head: string, fracPart: string, result: Option<int>)
    requires Split(Trim(s), '.') == [head, fracPart] || (Split(Trim(s), '.') == [head] && fracPart == "")
    requires Combine(head, fracPart, d) == result
    ensures Read(s, d) == result
  {
  }

  lemma ReadsDigits(
    s: string, negative: bool, whole: string, point: bool, fraction: string, d: nat, w: int, f: int, m: int)
    requires m == w * 10_000_000 + f
    requires s == Numeral(negative, whole, point, fraction)
    requires AllDigits(whole) && AllDigits(fraction) && (!point ==> fraction == "")
    requires AllDigits(Kept(fraction, d)) && w == Value(whole) && f == Value(Kept(fraction, d))
    ensures Read(s, d) == Some(Signed(negative, m))
  {
    var head := (if negative then "-" else "") + whole;
    SplitNumeral(negative, whole, point, fraction);
    CombinesDigits(head, negative, whole, fraction, d, w, f, m);
    ReadIs(s, d, head, fraction, Some(Signed(negative, m)));
  }

  lemma SevenDecimals()
    ensures Pow10(7) == 10_000_000
  {
    assert Pow10(3) == 1000 && Pow10(5) == 100_000;
  }

  lemma TruncatesNumeral(whole: string, fraction: string, d: nat, w: int, f: int)
    requires AllDigits(whole) && AllDigits(fraction) && Pow10(d) == 10_000_000
    requires AllDigits(Kept(fraction, d)) && w == Value(whole) && f == Value(Kept(fraction, d))
    ensures AllDigits(whole + fraction)
    ensures w * 10_000_000 + f == Value(whole + fraction) * 10_000_000 / Pow10(|fraction|)
  {
    KeptTruncates(fraction, d);
    ValueConcat(whole, fraction);
    TruncatesSum(w, Value(fraction), 10_000_000, Pow10(|fraction|), f);
    QuotientIs(Value(whole + fraction) * 10_000_000, Pow10(|fraction|), w * 10_000_000 + f);
  }

  lemma ReadsTruncatedAt(
    s: string, negative: bool, whole: string, point: bool, fraction: string, d: nat, magnitude: int)
    requires s == Numeral(negative, whole, point, fraction) && Pow10(d) == 10_000_000
    requires AllDigits(whole) && AllDigits(fraction) && (!point ==> fraction == "") && AllDigits(whole + fraction)
    requires magnitude == Value(whole + fraction) * 10_000_000 / Pow10(|fraction|)
    ensures Read(s, d) == Some(Signed(negative, magnitude))
  {
    KeptTruncates(fraction, d);
    var w, f := Value(whole), Value(Kept(fraction, d));
    TruncatesNumeral(whole, fraction, d, w, f);
    ReadsDigits(s, negative, whole, point, fraction, d, w, f, magnitude);
  }

  /** Any decimal numeral is read as its value in units of 1e-7, cut off toward zero. */
  lemma ReadsTruncated(negative: bool, whole: string, point: bool, fraction: string)
    requires AllDigits(whole) && AllDigits(fraction) && (!point ==> fraction == "")
    ensures AllDigits(whole + fraction)
    ensures var magnitude := Value(whole + fraction) * 10_000_000 / Pow10(|fraction|);
            ToStroops(Numeral(negative, whole, point, fraction)) == Some(Signed(negative, magnitude))
  {
    SevenDecimals();
    ValueConcat(whole, fraction);
    ReadsTruncatedAt(Numeral(negative, whole, point, fraction), negative, whole, point, fraction, 7,
                     Value(whole + fraction) * 10_000_000 / Pow10(|fraction|));
  }

  // ---------------------------------------------------------------- round trips

  /** A numeral of exactly `d` decimals is read digit by digit. */
  lemma ReadsExactly(s: string, d: nat, negative: bool, whole: string, fraction: string, w: int, f: int, m: int)
    requires m == w * 10_000_000 + f
    requires s == Numeral(negative, whole, true, fraction)
    requires AllDigits(whole) && AllDigits(fraction) && |fraction| == d && w == Value(whole) && f == Value(fraction)
    ensures Read(s, d) == Some(Signed(negative, m))
  {
    assert Kept(fraction, d) == fraction;
    ReadsDigits(s, negative, whole, true, fraction, d, w, f, m);
  }

  /** The two numerals of a written amount. */
  lemma WrittenParts(abs: nat, d: nat)
    requires 0 < d && Pow10(d) == 10_000_000
    ensures var whole, fraction := Decimal(abs / 10_000_000), PadStart(Decimal(abs % 10_000_000), d);
            && IsPlain(whole) && Value(whole) == abs / 10_000_000
            && AllDigits(fraction) && |fraction| == d && Value(fraction) == abs % 10_000_000
  {
    DecimalIsPlain(abs / 10_000_000);
    DecimalValue(abs / 10_000_000);
    DecimalValue(abs % 10_000_000);
    DecimalLength(abs % 10_000_000, d);
    PadStartValue(Decimal(abs % 10_000_000), d);
  }

  lemma ReadsWrittenAt(n: int, d: nat)
    requires 0 < d && Pow10(d) == 10_000_000
    ensures Read(Write(n, d), d) == Some(n)
    ensures Canonical(Write(n, d), d)
  {
    var abs: nat := if n < 0 then -n else n;
    var w, f := abs / 10_000_000, abs % 10_000_000;
    var whole, fraction := Decimal(w), PadStart(Decimal(f), d);
    var s := Numeral(n < 0, whole, true, fraction);
    WrittenParts(abs, d);
    WriteIs(n, d, n < 0, abs, whole, fraction, s);
    ReadsExactly(s, d, n < 0, whole, fraction, w, f, abs);
    assert w != 0 || f != 0 || abs == 0;
    assert CanonicalParts(s, d, n < 0, whole, fraction);
  }

  /** Writing and reading back gives every integer, the ones between -1 and 0 units included. */
  lemma ReadsWritten(n: int)
    ensures ToStroops(FromStroops(n)) == Some(n)
  {
    SevenDecimals();
    ReadsWrittenAt(n, 7);
  }

  lemma WriteIs(n: int, d: nat, negative: bool, abs: nat, whole: string, fraction: string, s: string)
    requires s == Numeral(negative, whole, true, fraction)
    requires n == Signed(negative, abs) && (negative ==> abs != 0)
    requires whole == Decimal(abs / 10_000_000) && fraction == PadStart(Decimal(abs % 10_000_000), d)
    ensures Write(n, d) == s
  {
  }

  lemma WritesCanonical(negative: bool, whole: string, fraction: string, s: string, d: nat, w: int, f: int)
    requires 0 < d && Pow10(d) == 10_000_000 && CanonicalParts(s, d, negative, whole, fraction)
    requires w == Value(whole) && f == Value(fraction)
    ensures Write(Signed(negative, w * 10_000_000 + f), d) == s
  {
    var abs := w * 10_000_000 + f;
    ValueBound(fraction);
    assert abs / 10_000_000 == w && abs % 10_000_000 == f;
    WrittenParts(abs, d);
    PlainIsDecimal(whole);
    SameValueSameDigits(fraction, PadStart(Decimal(f), d));
    WriteIs(Signed(negative, abs), d, negative, abs, whole, fraction, s);
  }

  lemma WritesReadAt(s: string, d: nat)
    requires 0 < d && Pow10(d) == 10_000_000 && Canonical(s, d)
    ensures Read(s, d).Some? && Write(Read(s, d).value, d) == s
  {
    var negative, whole, fraction :| CanonicalParts(s, d, negative, whole, fraction);
    var w, f := Value(whole), Value(fraction);
    ReadsExactly(s, d, negative, whole, fraction, w, f, w * 10_000_000 + f);
    WritesCanonical(negative, whole, fraction, s, d, w, f);
  }

  /** Reading and writing back gives a text again exactly when it is canonical. */
  lemma WritesReadIffCanonical(s: string)
    ensures ToStroops(s).Some? && FromStroops(ToStroops(s).value) == s <==> Canonical(s, 7)
  {
    SevenDecimals();
    if ToStroops(s).Some? {
      ReadsWrittenAt(ToStroops(s).value, 7);
    }
    if Canonical(s, 7) {
      WritesReadAt(s, 7);
    }
  }
}
