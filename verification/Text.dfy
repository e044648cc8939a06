/** Strings as JavaScript handles them: trimming, splitting, joining, and decimal numerals. */
module Text {
  // ---------------------------------------------------------------- white space

  /** White space and line terminators of ECMA-262, sections 12.2 and 12.3. */
  predicate IsSpace(c: char) {
    || c == '\t' || c == '\n' || c == '\U{B}' || c == '\U{C}' || c == '\r' || c == ' ' || c == '\U{A0}'
    || c == '\U{1680}' || '\U{2000}' <= c <= '\U{200A}' || c == '\U{2028}' || c == '\U{2029}'
    || c == '\U{202F}' || c == '\U{205F}' || c == '\U{3000}' || c == '\U{FEFF}'
  }

  predicate NoSpace(s: string) {
    forall i :: 0 <= i < |s| ==> !IsSpace(s[i])
  }

  function TrimStart(s: string): string {
    if s != "" && IsSpace(s[0]) then TrimStart(s[1..]) else s
  }

  function TrimEnd(s: string): string {
    if s != "" && IsSpace(s[|s| - 1]) then TrimEnd(s[..|s| - 1]) else s
  }

  function Trim(s: string): string {
    TrimEnd(TrimStart(s))
  }

  // ---------------------------------------------------------------- splitting and joining

  function IndexOf(s: string, c: char): (i: nat)
    ensures i <= |s|
  {
    if s == "" || s[0] == c then 0 else 1 + IndexOf(s[1..], c)
  }

  function Split(s: string, c: char): (parts: seq<string>)
    ensures parts != []
  {
    var i := IndexOf(s, c);
    if i == |s| then [s] else [s[..i]] + Split(s[i + 1..], c)
  }

  function Join(parts: seq<string>, separator: string): string {
    if parts == [] then ""
    else if |parts| == 1 then parts[0]
    else parts[0] + separator + Join(parts[1..], separator)
  }

  lemma {:induction false} IndexOfAt(a: string, c: char, b: string)
    requires c !in a
    ensures IndexOf(a + [c] + b, c) == |a|
  {
    if a != "" {
      assert (a + [c] + b)[1..] == a[1..] + [c] + b;
      assert c !in a[1..];
      IndexOfAt(a[1..], c, b);
    }
  }

  lemma {:induction false} IndexOfNone(s: string, c: char)
    requires c !in s
    ensures IndexOf(s, c) == |s|
  {
    if s != "" {
      assert c !in s[1..];
      IndexOfNone(s[1..], c);
    }
  }

  /** Splitting gives one part exactly when the separator does not occur. */
  lemma {:induction false} SplitCount(s: string, c: char)
    ensures |Split(s, c)| == 1 <==> c !in s
    ensures IndexOf(s, c) == |s| <==> c !in s
  {
    if s != "" && s[0] != c {
      SplitCount(s[1..], c);
      assert c in s <==> c in s[1..];
    }
  }

  lemma SplitNone(s: string, c: char)
    requires c !in s
    ensures Split(s, c) == [s]
  {
    IndexOfNone(s, c);
  }

  lemma SplitAt(a: string, c: char, b: string)
    requires c !in a
    ensures Split(a + [c] + b, c) == [a] + Split(b, c)
  {
    var s := a + [c] + b;
    IndexOfAt(a, c, b);
    assert s[..|a|] == a && s[|a| + 1..] == b;
  }

  lemma {:induction false} SplitJoin(parts: seq<string>, c: char)
    requires parts != [] && forall i :: 0 <= i < |parts| ==> c !in parts[i]
    ensures Split(Join(parts, [c]), c) == parts
  {
    if |parts| == 1 {
      SplitNone(parts[0], c);
    } else {
      SplitJoin(parts[1..], c);
      SplitAt(parts[0], c, Join(parts[1..], [c]));
      assert parts == [parts[0]] + parts[1..];
    }
  }

  lemma {:induction false} JoinAppends(lines: seq<string>, last: string, separator: string)
    requires lines != []
    ensures Join(lines + [last], separator) == Join(lines, separator) + separator + last
  {
    assert (lines + [last])[1..] == lines[1..] + [last];
    if |lines| > 1 {
      JoinAppends(lines[1..], last, separator);
    } else {
      assert lines[1..] + [last] == [last];
    }
  }

  // ---------------------------------------------------------------- words

  function FirstSpace(s: string): (i: nat)
    ensures i <= |s| && (forall j :: 0 <= j < i ==> !IsSpace(s[j])) && (i < |s| ==> IsSpace(s[i]))
  {
    if s == "" || IsSpace(s[0]) then 0 else 1 + FirstSpace(s[1..])
  }

  lemma {:induction false} TrimStartShorter(s: string)
    ensures |TrimStart(s)| <= |s|
    ensures s != "" && IsSpace(s[0]) ==> |TrimStart(s)| < |s|
  {
    if s != "" && IsSpace(s[0]) {
      TrimStartShorter(s[1..]);
    }
  }

  /** `split(/\s+/)` of a trimmed string. */
  function Words(s: string): (words: seq<string>)
    ensures words != []
    decreases |s|
  {
    var i := FirstSpace(s);
    if i == |s| then [s]
    else
      TrimStartShorter(s[i..]);
      [s[..i]] + Words(TrimStart(s[i..]))
  }

  predicate IsWord(s: string) {
    s != "" && NoSpace(s)
  }

  lemma FirstSpaceAt(word: string, rest: string)
    requires NoSpace(word)
    ensures FirstSpace(word + " " + rest) == |word|
  {
    var s := word + " " + rest;
    assert s[|word|] == ' ';
    assert forall j :: 0 <= j < |word| ==> s[j] == word[j];
  }

  lemma {:induction false} WordsJoin(words: seq<string>)
    requires words != [] && forall i :: 0 <= i < |words| ==> IsWord(words[i])
    ensures var s := Join(words, " "); s != "" && !IsSpace(s[0]) && !IsSpace(s[|s| - 1]) && Words(s) == words
  {
    hide Words, IsSpace;
    if |words| == 1 {
      OneWord(words[0]);
      assert words == [words[0]];
    } else {
      assert IsWord(words[0]);
      WordsJoin(words[1..]);
      OneMoreWord(words[0], Join(words[1..], " "));
      assert words == [words[0]] + words[1..];
    }
  }

  lemma OneWord(word: string)
    requires IsWord(word)
    ensures Words(word) == [word] && !IsSpace(word[0]) && !IsSpace(word[|word| - 1])
  {
    hide IsSpace;
    assert FirstSpace(word) == |word|;
  }

  lemma OneMoreWord(word: string, rest: string)
    requires IsWord(word) && rest != "" && !IsSpace(rest[0])
    ensures Words(word + " " + rest) == [word] + Words(rest) && !IsSpace((word + " " + rest)[0])
  {
    var s := word + " " + rest;
    assert s[|word|] == ' ' && s[..|word|] == word && s[|word|..] == " " + rest;
    FirstSpaceAt(word, rest);
    SpaceIsTrimmed(rest);
  }

  lemma SpaceIsTrimmed(rest: string)
    requires rest != "" && !IsSpace(rest[0])
    ensures TrimStart(" " + rest) == rest
  {
    assert (" " + rest)[1..] == rest;
  }

  lemma TrimWords(words: seq<string>)
    requires words != [] && forall i :: 0 <= i < |words| ==> IsWord(words[i])
    ensures Trim(Join(words, " ")) == Join(words, " ")
  {
    WordsJoin(words);
  }

  // ---------------------------------------------------------------- decimal numerals

  predicate IsDigit(c: char) {
    '0' <= c <= '9'
  }

  predicate AllDigits(s: string) {
    forall i :: 0 <= i < |s| ==> IsDigit(s[i])
  }

  /** `/^\d+$/`. */
  predicate IsNumeral(s: string) {
    s != "" && AllDigits(s)
  }

  function Pow10(n: nat): (p: nat)
    ensures 0 < p
  {
    if n == 0 then 1 else 10 * Pow10(n - 1)
  }

  /** The number a string of digits denotes. */
  function Value(s: string): nat
    requires AllDigits(s)
  {
    if s == "" then 0 else Value(s[..|s| - 1]) * 10 + (s[|s| - 1] as int - '0' as int)
  }

  function Digit(d: nat): (c: char)
    requires d < 10
    ensures IsDigit(c) && c as int - '0' as int == d
  {
    ('0' as int + d) as char
  }

  /** The numeral of a natural number. */
  function Decimal(n: nat): (s: string)
    ensures IsNumeral(s)
  {
    if n < 10 then [Digit(n)] else Decimal(n / 10) + [Digit(n % 10)]
  }

  function Zeros(n: nat): (s: string)
    ensures |s| == n && AllDigits(s)
  {
    if n == 0 then "" else Zeros(n - 1) + "0"
  }

  function PadStart(s: string, width: nat): string {
    if |s| < width then Zeros(width - |s|) + s else s
  }

  lemma {:induction false} DecimalValue(n: nat)
    ensures Value(Decimal(n)) == n
  {
    if n < 10 {
      assert Decimal(n)[..0] == "";
    } else {
      var s := Decimal(n);
      DecimalValue(n / 10);
      assert s[..|s| - 1] == Decimal(n / 10);
    }
  }

  lemma {:induction false} ValueConcat(a: string, b: string)
    requires AllDigits(a) && AllDigits(b)
    ensures AllDigits(a + b) && Value(a + b) == Value(a) * Pow10(|b|) + Value(b)
  {
    if b == "" {
      assert a + b == a;
    } else {
      var front, n := b[..|b| - 1], |b| - 1;
      ValueConcat(a, front);
      assert (a + b)[..|a + b| - 1] == a + front;
      Shift(Value(a), Pow10(n));
    }
  }

  lemma Shift(v: int, p: int)
    ensures v * (10 * p) == v * p * 10
  {
  }

  lemma {:induction false} ZerosValue(n: nat)
    ensures Value(Zeros(n)) == 0
  {
    if n > 0 {
      ZerosValue(n - 1);
      assert Zeros(n)[..n - 1] == Zeros(n - 1);
    }
  }

  lemma {:induction false} ValueBound(s: string)
    requires AllDigits(s)
    ensures Value(s) < Pow10(|s|)
  {
    if s != "" {
      ValueBound(s[..|s| - 1]);
    }
  }

  lemma PadStartValue(s: string, width: nat)
    requires AllDigits(s)
    ensures AllDigits(PadStart(s, width)) && Value(PadStart(s, width)) == Value(s)
  {
    if |s| < width {
      var zeros := Zeros(width - |s|);
      ZerosValue(width - |s|);
      ValueConcat(zeros, s);
      assert Value(zeros) * Pow10(|s|) == 0;
    }
  }

  /** A numeral without needless leading zeros. */
  predicate IsPlain(s: string) {
    IsNumeral(s) && (s[0] == '0' ==> |s| == 1)
  }

  lemma {:induction false} DecimalIsPlain(n: nat)
    ensures IsPlain(Decimal(n))
    ensures n > 0 ==> Decimal(n)[0] != '0'
  {
    if n >= 10 {
      DecimalIsPlain(n / 10);
      assert Decimal(n)[0] == Decimal(n / 10)[0];
    }
  }

  lemma {:induction false} PlainPositive(s: string)
    requires IsPlain(s) && s != "0"
    ensures 0 < Value(s)
  {
    if |s| == 1 {
      assert s[..0] == "";
    } else {
      var front := s[..|s| - 1];
      assert front[0] == s[0];
      PlainPositive(front);
    }
  }

  lemma {:induction false} PlainIsDecimal(s: string)
    requires IsPlain(s)
    ensures Decimal(Value(s)) == s
  {
    hide Value, Decimal;
    var n := |s| - 1;
    if n == 0 {
      OneDigit(s);
    } else {
      assert s[..n][0] == s[0];
      PlainIsDecimal(s[..n]);
      PlainPositive(s[..n]);
      AnotherDigit(s);
      assert s == s[..n] + [s[n]];
    }
  }

  lemma OneDigit(s: string)
    requires IsNumeral(s) && |s| == 1
    ensures Decimal(Value(s)) == s
  {
    assert s[..0] == "";
  }

  lemma AnotherDigit(s: string)
    requires IsNumeral(s) && |s| > 1 && Value(s[..|s| - 1]) > 0
    ensures Decimal(Value(s)) == Decimal(Value(s[..|s| - 1])) + [s[|s| - 1]]
  {
    var front, d := s[..|s| - 1], s[|s| - 1] as int - '0' as int;
    assert Value(s) == Value(front) * 10 + d;
    hide Value, Decimal;
    DecimalAppends(Value(front), d);
    assert Digit(d) == s[|s| - 1];
  }

  lemma DecimalAppends(n: nat, d: nat)
    requires 0 < n && d < 10
    ensures Decimal(n * 10 + d) == Decimal(n) + [Digit(d)]
  {
    var m := n * 10 + d;
    assert m / 10 == n && m % 10 == d && m >= 10;
  }

  /** Two strings of digits of the same length and value are the same string. */
  lemma {:induction false} SameValueSameDigits(a: string, b: string)
    requires AllDigits(a) && AllDigits(b) && |a| == |b| && Value(a) == Value(b)
    ensures a == b
  {
    if a != "" {
      var n := |a| - 1;
      assert Value(a[..n]) == Value(b[..n]);
      SameValueSameDigits(a[..n], b[..n]);
      assert a == a[..n] + [a[n]] && b == b[..n] + [b[n]];
    }
  }

  lemma {:induction false} DecimalLength(n: nat, k: nat)
    requires 0 < k
    ensures |Decimal(n)| <= k <==> n < Pow10(k)
    decreases k
  {
    if n < 10 {
      assert Pow10(k) == 10 * Pow10(k - 1);
    } else if k == 1 {
      assert Pow10(1) == 10 * Pow10(0) == 10;
    } else {
      DecimalLength(n / 10, k - 1);
      assert Pow10(k) == 10 * Pow10(k - 1);
    }
  }

  lemma TrimNoSpace(s: string)
    requires NoSpace(s)
    ensures Trim(s) == s
  {
  }
}
