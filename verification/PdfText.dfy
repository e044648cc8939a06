/**
 Literal strings of a PDF file, section 7.3.4.2 of ISO 32000-1. They are escaped as text and
 encoded as Latin-1 afterwards.
 */
module PdfText {
  import opened Options
  import opened Latin1

  predicate IsEscaped(c: char) {
    c == '\\' || c == '(' || c == ')'
  }

  /** pdfText. */
  function Escape(value: string): string {
    if value == "" then ""
    else (if IsEscaped(value[0]) then ['\\', value[0]] else [value[0]]) + Escape(value[1..])
  }

  /** The character a backslash and `c` stand for; octal codes are not read here. */
  function Unescaped(c: char): Option<string> {
    if c == 'n' then Some("\n")
    else if c == 'r' then Some("\r")
    else if c == 't' then Some("\t")
    else if c == 'b' then Some("\U{8}")
    else if c == 'f' then Some("\U{C}")
    else if '0' <= c <= '7' || c == '\r' || c == '\n' then None
    else Some([c])
  }

  /**
   Reads a literal string after its opening parenthesis, inside `depth` further ones, and yields
   it with what follows its closing parenthesis. Line breaks of all kinds read as line feeds.
   */
  function ReadLiteral(s: string, depth: nat): Option<(string, string)>
    decreases |s|
  {
    if s == "" then None
    else if s[0] == '\\' then
      if |s| == 1 || Unescaped(s[1]).None? then None
      else InFront(Unescaped(s[1]).value, ReadLiteral(s[2..], depth))
    else if s[0] == ')' then
      if depth == 0 then Some(("", s[1..])) else InFront(")", ReadLiteral(s[1..], depth - 1))
    else if s[0] == '(' then InFront("(", ReadLiteral(s[1..], depth + 1))
    else if s[0] == '\r' then InFront("\n", ReadLiteral(if |s| > 1 && s[1] == '\n' then s[2..] else s[1..], depth))
    else InFront([s[0]], ReadLiteral(s[1..], depth))
  }

  function InFront(text: string, r: Option<(string, string)>): Option<(string, string)> {
    match r
    case None => None
    case Some((value, rest)) => Some((text + value, rest))
  }

  /** A text with each of its line breaks turned into a line feed. */
  function LineFeeds(value: string): string {
    if value == "" then ""
    else if value[0] == '\r' then
      "\n" + LineFeeds(if |value| > 1 && value[1] == '\n' then value[2..] else value[1..])
    else [value[0]] + LineFeeds(value[1..])
  }

  /** A written text is read back up to its line breaks, and reading stops where the text ends. */
  lemma {:induction false} ReadsEscaped(value: string, rest: string)
    ensures ReadLiteral(Escape(value) + ")" + rest, 0) == Some((LineFeeds(value), rest))
    decreases |value|
  {
    hide Unescaped;
    if value == "" {
      assert (Escape(value) + ")" + rest)[1..] == rest;
    } else if value[0] == '\r' && |value| > 1 && value[1] == '\n' {
      ReadsEscaped(value[2..], rest);
      EscapedBreak(value, rest);
    } else {
      ReadsEscaped(value[1..], rest);
      EscapedFront(value, rest);
      EscapedStandsForItself(value[0]);
      StartsAlike(value[1..], rest);
    }
  }

  lemma EscapedFront(value: string, rest: string)
    requires value != ""
    ensures var s, tail := Escape(value) + ")" + rest, Escape(value[1..]) + ")" + rest;
            if IsEscaped(value[0]) then |s| >= 2 && s[0] == '\\' && s[1] == value[0] && s[2..] == tail
            else s[0] == value[0] && s[1..] == tail
  {
    hide Escape;
    var head := if IsEscaped(value[0]) then ['\\', value[0]] else [value[0]];
    EscapeStep(value, head);
    Regroup(head, Escape(value[1..]), rest);
  }

  lemma EscapeStep(value: string, head: string)
    requires value != "" && head == if IsEscaped(value[0]) then ['\\', value[0]] else [value[0]]
    ensures Escape(value) == head + Escape(value[1..])
  {
  }

  lemma Regroup(head: string, escaped: string, rest: string)
    ensures var s, tail := head + escaped + ")" + rest, escaped + ")" + rest;
            s[..|head|] == head && s[|head|..] == tail
            && forall i :: 0 <= i < |head| ==> s[i] == head[i]
  {
    assert head + escaped + ")" + rest == head + (escaped + ")" + rest);
  }

  lemma EscapedBreak(value: string, rest: string)
    requires |value| > 1 && value[0] == '\r' && value[1] == '\n'
    ensures var s := Escape(value) + ")" + rest;
            |s| > 2 && s[0] == '\r' && s[1] == '\n' && s[2..] == Escape(value[2..]) + ")" + rest
  {
    EscapedFront(value, rest);
    EscapedFront(value[1..], rest);
    assert value[1..][1..] == value[2..];
  }

  lemma EscapedStandsForItself(c: char)
    ensures IsEscaped(c) ==> Unescaped(c) == Some([c])
  {
  }

  lemma StartsAlike(value: string, rest: string)
    ensures (Escape(value) + ")" + rest)[0] == '\n' <==> value != "" && value[0] == '\n'
  {
  }

  lemma {:induction false} LineFeedsIff(value: string)
    ensures LineFeeds(value) == value <==> '\r' !in value
    ensures '\r' !in LineFeeds(value)
    decreases |value|
  {
    if value != "" {
      if value[0] == '\r' {
        LineFeedsIff(if |value| > 1 && value[1] == '\n' then value[2..] else value[1..]);
      } else {
        LineFeedsIff(value[1..]);
        assert value == [value[0]] + value[1..] && LineFeeds(value)[1..] == LineFeeds(value[1..]);
      }
    }
  }

  /** The text itself comes back exactly when it has no carriage return. */
  lemma EscapeRoundTripIff(value: string, rest: string)
    ensures ReadLiteral(Escape(value) + ")" + rest, 0) == Some((value, rest)) <==> '\r' !in value
  {
    ReadsEscaped(value, rest);
    LineFeedsIff(value);
  }

  // ---------------------------------------------------------------- in the encoded file

  lemma {:induction false} EscapeIsLatin1Iff(value: string)
    ensures IsLatin1(Escape(value)) <==> IsLatin1(value)
  {
    if value != "" {
      var head := if IsEscaped(value[0]) then ['\\', value[0]] else [value[0]];
      EscapeIsLatin1Iff(value[1..]);
      Latin1Concat(head, Escape(value[1..]));
      Latin1Concat([value[0]], value[1..]);
      assert value == [value[0]] + value[1..];
      assert IsLatin1(head) <==> value[0] < '\U{100}' by {
        assert head[|head| - 1] == value[0];
      }
    }
  }

  lemma {:induction false} LineFeedsIsLatin1Iff(value: string)
    ensures IsLatin1(LineFeeds(value)) <==> IsLatin1(value)
    decreases |value|
  {
    if value != "" {
      var n := if value[0] == '\r' && |value| > 1 && value[1] == '\n' then 2 else 1;
      LineFeedsIsLatin1Iff(value[n..]);
      Latin1Concat(value[..n], value[n..]);
      assert value == value[..n] + value[n..];
      Latin1Concat(if value[0] == '\r' then "\n" else [value[0]], LineFeeds(value[n..]));
    }
  }

  /** Whatever is read from Latin-1 text is Latin-1 text. */
  lemma {:induction false} ReadIsLatin1(s: string, depth: nat)
    requires IsLatin1(s)
    ensures match ReadLiteral(s, depth)
            case None => true
            case Some((value, rest)) => IsLatin1(value) && IsLatin1(rest)
    decreases |s|
  {
    if s == "" {
    } else if s[0] == '\\' {
      if |s| > 1 && Unescaped(s[1]).Some? {
        ReadIsLatin1(s[2..], depth);
      }
    } else if s[0] == ')' {
      if depth > 0 {
        ReadIsLatin1(s[1..], depth - 1);
      }
    } else if s[0] == '(' {
      ReadIsLatin1(s[1..], depth + 1);
    } else if s[0] == '\r' {
      ReadIsLatin1(if |s| > 1 && s[1] == '\n' then s[2..] else s[1..], depth);
    } else {
      ReadIsLatin1(s[1..], depth);
    }
  }

  /** In the encoded file a text is read back up to its line breaks exactly when it is Latin-1. */
  lemma ReadsEncodedIff(value: string, rest: string)
    ensures ReadLiteral(Encode(Escape(value)) + ")" + Encode(rest), 0) == Some((LineFeeds(value), Encode(rest))) <==>
            IsLatin1(value)
  {
    hide Escape, ReadLiteral, LineFeeds;
    EscapeIsLatin1Iff(value);
    EncodeIff(Escape(value));
    EncodeIff(rest);
    ReadsEscaped(value, Encode(rest));
    if !IsLatin1(value) {
      LineFeedsIsLatin1Iff(value);
      Latin1Concat(Encode(Escape(value)), ")");
      Latin1Concat(Encode(Escape(value)) + ")", Encode(rest));
      ReadIsLatin1(Encode(Escape(value)) + ")" + Encode(rest), 0);
    }
  }

  /** The text itself comes back exactly when it is Latin-1 and has no carriage return. */
  lemma EncodedRoundTripIff(value: string, rest: string)
    ensures ReadLiteral(Encode(Escape(value)) + ")" + Encode(rest), 0) == Some((value, Encode(rest))) <==>
            IsLatin1(value) && '\r' !in value
  {
    hide Escape, ReadLiteral, LineFeeds;
    ReadsEncodedIff(value, rest);
    LineFeedsIff(value);
    if !IsLatin1(value) {
      EncodeIff(Escape(value));
      EncodeIff(rest);
      Latin1Concat(Encode(Escape(value)), ")");
      Latin1Concat(Encode(Escape(value)) + ")", Encode(rest));
      ReadIsLatin1(Encode(Escape(value)) + ")" + Encode(rest), 0);
    }
  }

  /** The encoding turns U+0128 into an opening parenthesis that nothing closes, and U+0141 into an A. */
  lemma BeyondLatin1()
    ensures Encode(Escape("\U{128}")) == "(" && ReadLiteral(Encode(Escape("\U{128}")) + ")", 0) == None
    ensures ReadLiteral(Encode(Escape("\U{141}")) + ")", 0) == Some(("A", ""))
  {
    OneByte('\U{128}', '(');
    OneByte('\U{141}', 'A');
    assert "()"[1..] == ")" && ")"[1..] == "" && "A)"[1..] == ")";
  }

  lemma OneByte(c: char, byte: char)
    requires c as int < 0x1_0000 && !IsEscaped(c) && LowByte(c as int) == byte
    ensures Encode(Escape([c])) == [byte]
  {
    assert [c][1..] == "";
    assert Escape([c]) == [c];
    assert Encode([c]) == BytesOf(c) + Encode("");
  }
}
