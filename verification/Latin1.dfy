/**
 The `latin1` encoding of Node.js: each code unit of a string becomes the byte of its low eight
 bits. A byte is written as the character of its number; a character beyond the basic plane is
 two code units (section 6.1.4 of ECMA-262).
 */
module Latin1 {
  predicate IsLatin1(s: string) {
    forall i :: 0 <= i < |s| ==> s[i] < '\U{100}'
  }

  function LowByte(unit: nat): char {
    (unit % 256) as char
  }

  function BytesOf(c: char): string {
    var n := c as int;
    if n < 0x1_0000 then [LowByte(n)]
    else [LowByte(0xD800 + (n - 0x1_0000) / 0x400), LowByte(0xDC00 + (n - 0x1_0000) % 0x400)]
  }

  /** `Buffer.from(s, 'latin1')`. */
  function Encode(s: string): string {
    if s == "" then "" else BytesOf(s[0]) + Encode(s[1..])
  }

  /** `Buffer.byteLength(s, 'latin1')`, which is `s.length`. */
  function ByteLength(s: string): nat {
    |Encode(s)|
  }

  lemma {:induction false} EncodeConcat(a: string, b: string)
    ensures Encode(a + b) == Encode(a) + Encode(b)
  {
    if a == "" {
      assert a + b == b;
    } else {
      assert (a + b)[1..] == a[1..] + b;
      EncodeConcat(a[1..], b);
    }
  }

  /** Exactly the texts of characters below 256 are their own encoding. */
  lemma {:induction false} EncodeIff(s: string)
    ensures IsLatin1(Encode(s))
    ensures Encode(s) == s <==> IsLatin1(s)
  {
    if s != "" {
      EncodeIff(s[1..]);
      if IsLatin1(s) {
        assert LowByte(s[0] as int) == s[0];
      }
    }
  }

  lemma EncodeBetween(a: string, s: string, b: string)
    requires IsLatin1(a) && IsLatin1(b)
    ensures Encode(a + s + b) == a + Encode(s) + b
  {
    EncodeConcat(a + s, b);
    EncodeConcat(a, s);
    EncodeIff(a);
    EncodeIff(b);
  }

  lemma Latin1Concat(a: string, b: string)
    ensures IsLatin1(a + b) <==> IsLatin1(a) && IsLatin1(b)
  {
    assert IsLatin1(a + b) ==> forall i :: 0 <= i < |a| ==> (a + b)[i] == a[i];
    assert IsLatin1(a + b) ==> forall i :: 0 <= i < |b| ==> (a + b)[|a| + i] == b[i];
  }

  /** A character beyond the basic plane leaves the low bytes of its two code units, as UTF-16 forms them. */
  lemma SurrogatePair(c: char) returns (high: nat, low: nat)
    requires 0x1_0000 <= c as int
    ensures 0xD800 <= high < 0xDC00 <= low < 0xE000
    ensures c as int == 0x1_0000 + (high - 0xD800) * 0x400 + (low - 0xDC00)
    ensures Encode([c]) == [(high % 256) as char, (low % 256) as char]
  {
    high, low := 0xD800 + (c as int - 0x1_0000) / 0x400, 0xDC00 + (c as int - 0x1_0000) % 0x400;
    assert [c][1..] == "";
    assert Encode([c]) == BytesOf(c) + Encode("");
  }
}
