/**
 The reader follows the references of any written file to its pages, and gets exactly their lines
 when, and only when, the lines are Latin-1 text.
 */
module PdfRoundTrip {
  import opened Options
  import opened Latin1
  import opened Text
  import opened PdfText
  import opened Pdf
  import opened PdfReader

  // ---------------------------------------------------------------- words

  lemma SkipThe(literal: string, rest: string)
    ensures Skip(literal + rest, literal) == Some(rest)
  {
  }

  lemma {:induction false} DigitCountIs(digits: string, rest: string)
    requires AllDigits(digits) && (rest == "" || !IsDigit(rest[0]))
    ensures DigitCount(digits + rest) == |digits|
  {
    if digits == "" {
      assert digits + rest == rest;
    } else {
      assert (digits + rest)[1..] == digits[1..] + rest;
      DigitCountIs(digits[1..], rest);
    }
  }

  lemma NumberThe(n: nat, rest: string)
    requires rest == "" || !IsDigit(rest[0])
    ensures Number(Decimal(n) + rest) == Some((n, rest))
  {
    var s := Decimal(n) + rest;
    DigitCountIs(Decimal(n), rest);
    assert s[..|Decimal(n)|] == Decimal(n) && s[|Decimal(n)|..] == rest;
    DecimalValue(n);
  }

  lemma {:induction false} NameLengthIs(name: string, rest: string)
    requires ' ' !in name && rest != "" && rest[0] == ' '
    ensures NameLength(name + rest) == |name|
  {
    if name == "" {
      assert name + rest == rest;
    } else {
      assert (name + rest)[1..] == name[1..] + rest;
      NameLengthIs(name[1..], rest);
    }
  }

  lemma NameThe(name: string, rest: string)
    requires name != "" && ' ' !in name && rest != "" && rest[0] == ' '
    ensures Name(name + rest) == Some((name, rest))
  {
    NameLengthIs(name, rest);
  }

  lemma {:induction false} TrailingThe(front: string, digits: string)
    requires front != "" && !IsDigit(front[|front| - 1]) && AllDigits(digits)
    ensures TrailingDigits(front + digits) == digits
  {
    var s := front + digits;
    if digits == "" {
      assert s == front;
    } else {
      var n := |digits| - 1;
      assert s[..|s| - 1] == front + digits[..n] && s[|s| - 1] == digits[n];
      TrailingThe(front, digits[..n]);
      assert digits == digits[..n] + [digits[n]];
    }
  }

  // ---------------------------------------------------------------- the cross-reference table

  /** The offsets of all objects fit into the ten digits of the table. */
  predicate Fits(pages: seq<seq<string>>) {
    Offset(pages, Total(pages)) < 10_000_000_000
  }

  lemma TenDigits(offset: nat)
    ensures |XrefLine(offset)| == 20 <==> offset < 10_000_000_000
  {
    DecimalLength(offset, 10);
    TenthPower();
  }

  lemma TenthPower()
    ensures Pow10(10) == 10_000_000_000
  {
    assert Pow10(2) == 100;
    assert Pow10(4) == 10_000;
    assert Pow10(6) == 1_000_000;
    assert Pow10(8) == 100_000_000;
  }

  lemma ReadsLine(offset: nat)
    requires offset < 10_000_000_000
    ensures |XrefLine(offset)| == 20 && EntryOffset(XrefLine(offset)) == Some(offset)
  {
    TenDigits(offset);
    var digits := PadStart(Decimal(offset), 10);
    PadStartValue(Decimal(offset), 10);
    DecimalValue(offset);
    assert XrefLine(offset)[..10] == digits && XrefLine(offset)[10..] == " 00000 n \n";
  }

  lemma {:induction false} OffsetsGrow(pages: seq<seq<string>>, n: nat, k: nat)
    requires 1 <= n <= k <= Total(pages)
    ensures Offset(pages, n) <= Offset(pages, k)
    decreases k
  {
    hide ObjectEntry;
    if n < k {
      OffsetsGrow(pages, n, k - 1);
    }
  }

  /** All lines of the table have twenty bytes exactly when the last offset has at most ten digits. */
  lemma TwentyBytesIff(pages: seq<seq<string>>)
    ensures (forall n :: 1 <= n <= Total(pages) ==> |XrefLine(Offset(pages, n))| == 20) <==> Fits(pages)
  {
    var total := Total(pages);
    TenDigits(Offset(pages, total));
    if Fits(pages) {
      forall n | 1 <= n <= total ensures |XrefLine(Offset(pages, n))| == 20 {
        OffsetsGrow(pages, n, total);
        TenDigits(Offset(pages, n));
      }
    }
  }

  lemma {:induction false} LineAt(pages: seq<seq<string>>, n: nat, k: nat)
    requires n <= k <= Total(pages) && Fits(pages)
    ensures |XrefLines(pages, k)| == 20 * (k + 1)
    ensures 1 <= n ==> XrefLines(pages, k)[20 * n..20 * n + 20] == XrefLine(Offset(pages, n))
    decreases k
  {
    hide Offset, XrefLine;
    if k > 0 {
      OffsetFits(pages, k);
      var lines, line := XrefLines(pages, k - 1), XrefLine(Offset(pages, k));
      ReadsLine(Offset(pages, k));
      if n == k {
        LineAt(pages, k - 1, k - 1);
        LastOfTwo(lines, line);
      } else {
        LineAt(pages, n, k - 1);
        InFirst(lines, line, 20 * n, 20 * n + 20);
      }
    }
  }

  lemma LastOfTwo(a: string, b: string)
    ensures (a + b)[|a|..|a| + |b|] == b
  {
  }

  lemma InFirst(a: string, b: string, i: nat, j: nat)
    requires i <= j <= |a|
    ensures (a + b)[i..j] == a[i..j]
  {
  }

  lemma OffsetFits(pages: seq<seq<string>>, n: nat)
    requires 1 <= n <= Total(pages) && Fits(pages)
    ensures Offset(pages, n) < 10_000_000_000
  {
    OffsetsGrow(pages, n, Total(pages));
  }

  lemma FindsHeader(pages: seq<seq<string>>)
    ensures Skip(File(pages), "%PDF-1.4\n").Some?
  {
    hide Body, Xref, Trailer;
    assert File(pages) == HEADER + (Body(pages, Total(pages)) + (Xref(pages) + Trailer(pages)));
    SkipThe(HEADER, Body(pages, Total(pages)) + (Xref(pages) + Trailer(pages)));
  }

  lemma FindsStart(pages: seq<seq<string>>)
    ensures StartXref(File(pages)) == Some(XrefStart(pages))
  {
    hide Body, Xref, XrefStart, Decimal;
    var x := XrefStart(pages);
    var front := HEADER + Body(pages, Total(pages)) + Xref(pages) + ("trailer\n<< /Size " + Decimal(Total(pages) + 1)
                                                                     + " /Root 1 0 R >>\nstartxref\n");
    var file := File(pages);
    assert file == front + Decimal(x) + "\n%%EOF";
    assert file[..|file| - 6] == front + Decimal(x);
    TrailingThe(front, Decimal(x));
    DecimalValue(x);
  }

  lemma {:induction false} TableStartsFree(pages: seq<seq<string>>, k: nat, rest: string)
    requires k <= Total(pages)
    ensures StartsFree(XrefLines(pages, k) + rest)
  {
    hide XrefLine, Offset;
    if k > 0 {
      var line := XrefLine(Offset(pages, k));
      TableStartsFree(pages, k - 1, line + rest);
      assert XrefLines(pages, k) + rest == XrefLines(pages, k - 1) + (line + rest);
    }
  }

  lemma FindsTable(pages: seq<seq<string>>)
    ensures XrefTable(File(pages), XrefStart(pages)) ==
            Some((Total(pages) + 1, XrefLines(pages, Total(pages)) + Trailer(pages)))
  {
    hide Body, XrefLines, Trailer, Number, Decimal, StartsFree;
    var file, x, total := File(pages), XrefStart(pages), Total(pages);
    TableStartsFree(pages, total, Trailer(pages));
    var lines := XrefLines(pages, total) + Trailer(pages);
    var afterCount := "\n" + lines;
    assert file[x..] == Xref(pages) + Trailer(pages);
    assert Xref(pages) + Trailer(pages) == "xref\n0 " + (Decimal(total + 1) + afterCount);
    SkipThe("xref\n0 ", Decimal(total + 1) + afterCount);
    NumberThe(total + 1, afterCount);
    SkipThe("\n", lines);
  }

  lemma FindsOffset(pages: seq<seq<string>>, n: nat)
    requires 1 <= n <= Total(pages) && Fits(pages)
    ensures OffsetOf(File(pages), XrefStart(pages), n) == Some(Offset(pages, n))
  {
    hide XrefTable, File, XrefStart, XrefLines, XrefLine, Trailer, EntryOffset, Offset;
    var total := Total(pages);
    FindsTable(pages);
    LineAt(pages, n, total);
    LineAt(pages, total, total);
    OffsetFits(pages, n);
    ReadsLine(Offset(pages, n));
    var lines := XrefLines(pages, total);
    assert (lines + Trailer(pages))[20 * n..20 * n + 20] == lines[20 * n..20 * n + 20];
  }

  // ---------------------------------------------------------------- the objects

  /** The first objects start the file's body. */
  lemma {:induction false} BodyStarts(pages: seq<seq<string>>, n: nat, k: nat)
    requires n <= k <= Total(pages)
    ensures |Body(pages, n)| <= |Body(pages, k)| && Body(pages, k)[..|Body(pages, n)|] == Body(pages, n)
    decreases k
  {
    hide ObjectEntry;
    if n < k {
      BodyStarts(pages, n, k - 1);
    }
  }

  /** What follows object `n` in the file. */
  function Following(pages: seq<seq<string>>, n: nat): string
    requires 1 <= n <= Total(pages)
  {
    BodyStarts(pages, n, Total(pages));
    Body(pages, Total(pages))[|Body(pages, n)|..] + Xref(pages) + Trailer(pages)
  }

  lemma EntryFollows(pages: seq<seq<string>>, n: nat)
    requires 1 <= n <= Total(pages)
    ensures Offset(pages, n) <= |File(pages)|
    ensures File(pages)[Offset(pages, n)..] == ObjectEntry(pages, n) + Following(pages, n)
  {
    BodyIsSplit(pages, n);
    hide ObjectEntry, Xref, Trailer, Body, Following;
    var front, rest := HEADER + Body(pages, n - 1), ObjectEntry(pages, n) + Following(pages, n);
    assert File(pages) == front + rest;
  }

  lemma BodyIsSplit(pages: seq<seq<string>>, n: nat)
    requires 1 <= n <= Total(pages)
    ensures HEADER + Body(pages, Total(pages)) + Xref(pages) + Trailer(pages) ==
            (HEADER + Body(pages, n - 1)) + (ObjectEntry(pages, n) + Following(pages, n))
  {
    hide ObjectEntry, Xref, Trailer;
    var body := Body(pages, Total(pages));
    BodyStarts(pages, n, Total(pages));
    BodyStarts(pages, n - 1, n);
    var after := body[|Body(pages, n)|..];
    assert body == Body(pages, n) + after;
    Regrouped(HEADER, Body(pages, n - 1), ObjectEntry(pages, n), after, Xref(pages), Trailer(pages));
  }

  lemma Regrouped(a: string, b: string, c: string, d: string, e: string, f: string)
    ensures a + (b + c + d) + e + f == (a + b) + (c + (d + e + f))
  {
  }

  /** The offset of an object is exactly where its heading starts. */
  lemma FindsObject(pages: seq<seq<string>>, n: nat)
    requires 1 <= n <= Total(pages) && Fits(pages)
    ensures ObjectAt(File(pages), XrefStart(pages), n) ==
            Some(ObjectText(pages, n) + ("\nendobj\n" + Following(pages, n)))
  {
    hide File, XrefStart, OffsetOf, Offset, Following, ObjectText, Decimal;
    FindsOffset(pages, n);
    EntryFollows(pages, n);
    var rest := ObjectText(pages, n) + ("\nendobj\n" + Following(pages, n));
    assert ObjectEntry(pages, n) + Following(pages, n) == (Decimal(n) + " 0 obj\n") + rest;
    SkipThe(Decimal(n) + " 0 obj\n", rest);
  }

  lemma TrailerNamesCatalog(pages: seq<seq<string>>)
    ensures RootOf(Trailer(pages), Total(pages) + 1) == Some(1)
  {
    hide RootOf, Decimal, XrefStart;
    TrailerIs(Decimal(Total(pages) + 1), Decimal(XrefStart(pages)));
    ReadsRoot(Total(pages) + 1, "startxref\n" + Decimal(XrefStart(pages)) + "\n%%EOF");
  }

  lemma TrailerIs(size: string, start: string)
    ensures "trailer\n<< /Size " + size + " /Root 1 0 R >>\nstartxref\n" + start + "\n%%EOF" ==
            "trailer\n<< /Size " + (size + (" /Root " + ("1" + (" 0 R >>\n" + ("startxref\n" + start + "\n%%EOF")))))
  {
    assert " /Root 1 0 R >>\nstartxref\n" == " /Root " + ("1" + (" 0 R >>\n" + "startxref\n"));
  }

  lemma ReadsRoot(size: nat, end: string)
    ensures RootOf("trailer\n<< /Size " + (Decimal(size) + (" /Root " + ("1" + (" 0 R >>\n" + end)))), size) == Some(1)
  {
    hide Number, Decimal, Skip;
    var afterRoot := " 0 R >>\n" + end;
    var afterSize := " /Root " + ("1" + afterRoot);
    WriteOne();
    SkipThe("trailer\n<< /Size ", Decimal(size) + afterSize);
    NumberThe(size, afterSize);
    SkipThe(" /Root ", Decimal(1) + afterRoot);
    NumberThe(1, afterRoot);
    SkipThe(" 0 R >>\n", end);
  }

  lemma FindsRoot(pages: seq<seq<string>>)
    requires Fits(pages)
    ensures Root(File(pages), XrefStart(pages)) == Some(1)
  {
    hide File, XrefStart, XrefTable, XrefLines, Trailer, RootOf;
    var total := Total(pages);
    FindsTable(pages);
    LineAt(pages, total, total);
    var lines, trailer := XrefLines(pages, total), Trailer(pages);
    assert (lines + trailer)[20 * (total + 1)..] == trailer;
    TrailerNamesCatalog(pages);
  }

  lemma WriteOne()
    ensures Decimal(1) == "1" && Decimal(2) == "2"
  {
    assert Digit(1) == '1' && Digit(2) == '2';
  }

  // ---------------------------------------------------------------- the page tree

  /** The numbers of the page objects. */
  function PageNumbers(count: nat): (numbers: seq<nat>)
    ensures |numbers| == count
  {
    if count == 0 then [] else PageNumbers(count - 1) + [2 + 2 * count]
  }

  /** References number `i` to `count` of the page tree, as a list ending in a bracket. */
  function KidsFrom(i: nat, count: nat): string
    requires i < count
    decreases count - i
  {
    Reference(4 + 2 * i) + if i + 1 < count then " " + KidsFrom(i + 1, count) else ""
  }

  lemma {:induction false} KidsAppend(i: nat, count: nat)
    requires i < count
    ensures KidsFrom(i, count + 1) == KidsFrom(i, count) + " " + Reference(4 + 2 * count)
    decreases count - i
  {
    hide Reference;
    if i + 1 < count {
      KidsAppend(i + 1, count);
    }
  }

  lemma {:induction false} JoinedKids(count: nat)
    requires 0 < count
    ensures Join(Kids(count), " ") == KidsFrom(0, count)
  {
    hide Reference;
    if count == 1 {
      assert Kids(1) == [Reference(4)];
    } else {
      JoinedKids(count - 1);
      JoinAppends(Kids(count - 1), Reference(2 + 2 * count), " ");
      KidsAppend(0, count - 1);
    }
  }

  function NumbersFrom(i: nat, count: nat): seq<nat>
    decreases count - i
  {
    if i < count then [4 + 2 * i] + NumbersFrom(i + 1, count) else []
  }

  lemma {:induction false} NumbersAppend(i: nat, count: nat)
    requires i <= count
    ensures NumbersFrom(i, count + 1) == NumbersFrom(i, count) + [4 + 2 * count]
    decreases count - i
  {
    if i < count {
      NumbersAppend(i + 1, count);
    } else {
      assert NumbersFrom(i + 1, count + 1) == [];
    }
  }

  lemma {:induction false} NumbersAre(count: nat)
    ensures NumbersFrom(0, count) == PageNumbers(count)
  {
    if count > 0 {
      NumbersAre(count - 1);
      NumbersAppend(0, count - 1);
    }
  }

  lemma {:induction false} ReadsKids(i: nat, count: nat, rest: string)
    requires i < count
    ensures ReadKids(KidsFrom(i, count) + ("]" + rest)) == Some((NumbersFrom(i, count), rest))
    decreases count - i
  {
    hide Number, Skip, Decimal;
    var n, s := 4 + 2 * i, KidsFrom(i, count) + ("]" + rest);
    if i + 1 < count {
      var next := KidsFrom(i + 1, count) + ("]" + rest);
      var after := " 0 R" + (" " + next);
      assert s == Decimal(n) + after;
      NumberThe(n, after);
      SkipThe(" 0 R", " " + next);
      SkipThe(" ", next);
      assert (" " + next)[0] == ' ';
      ReadsKids(i + 1, count, rest);
    } else {
      var after := " 0 R" + ("]" + rest);
      assert s == Decimal(n) + after;
      NumberThe(n, after);
      SkipThe(" 0 R", "]" + rest);
      assert ("]" + rest)[0] == ']' && ("]" + rest)[1..] == rest;
      assert NumbersFrom(i + 1, count) == [] && NumbersFrom(i, count) == [n];
    }
  }

  lemma Associates(a: string, b: string, c: string, d: string, e: string)
    ensures a + b + c + d + e == a + (b + (c + (d + e)))
  {
  }

  lemma ReadsCatalog(end: string)
    ensures TreeOf(CATALOG + ("\nendobj\n" + end)) == Some(2)
  {
    hide Number, Skip, Decimal;
    WriteOne();
    var after := " 0 R >>\n" + ("endobj\n" + end);
    assert CATALOG + ("\nendobj\n" + end) == "<< /Type /Catalog /Pages " + (Decimal(2) + after);
    SkipThe("<< /Type /Catalog /Pages ", Decimal(2) + after);
    NumberThe(2, after);
    SkipThe(" 0 R >>\n", "endobj\n" + end);
  }

  lemma ReadsPageTree(count: nat, end: string)
    requires 0 < count
    ensures KidsOf(Tree(count) + end) == Some(PageNumbers(count))
  {
    hide Number, Skip, Decimal, ReadKids, Kids, KidsFrom, Join, NumbersFrom, PageNumbers;
    var open, kids := "<< /Type /Pages /Kids [", Join(Kids(count), " ");
    var close := " >>" + end;
    var after := " /Count " + (Decimal(count) + close);
    JoinedKids(count);
    NumbersAre(count);
    var list := kids + ("]" + after);
    assert "]" + after == "] /Count " + (Decimal(count) + close);
    Associates(open, kids, "] /Count ", Decimal(count), close);
    Associates(open, kids, "] /Count ", Decimal(count), " >>");
    assert open + kids + "] /Count " + Decimal(count) + " >>" + end ==
           open + kids + "] /Count " + Decimal(count) + close;
    SkipThe(open, list);
    ReadsKids(0, count, after);
    SkipThe(" /Count ", Decimal(count) + close);
    NumberThe(count, close);
  }

  lemma CatalogNamesTree(pages: seq<seq<string>>)
    ensures TreeOf(ObjectText(pages, 1) + ("\nendobj\n" + Following(pages, 1))) == Some(2)
  {
    hide Following, ObjectText, TreeOf;
    FirstObjects(pages);
    ReadsCatalog(Following(pages, 1));
  }

  lemma TreeNamesPages(pages: seq<seq<string>>)
    requires pages != []
    ensures KidsOf(ObjectText(pages, 2) + ("\nendobj\n" + Following(pages, 2))) == Some(PageNumbers(|pages|))
  {
    SecondObject(pages);
    hide Following, ObjectText, KidsOf, PageNumbers, Tree;
    ReadsPageTree(|pages|, "\nendobj\n" + Following(pages, 2));
  }

  lemma SecondObject(pages: seq<seq<string>>)
    ensures ObjectText(pages, 2) == Tree(|pages|)
  {
    hide Tree;
  }

  lemma FindsPages(pages: seq<seq<string>>)
    requires Fits(pages) && pages != []
    ensures PageTree(File(pages), XrefStart(pages)) == Some((2, PageNumbers(|pages|)))
  {
    hide File, XrefStart, Root, ObjectAt, Following, ObjectText, TreeOf, KidsOf, PageNumbers, Kids, Join, Decimal;
    FindsRoot(pages);
    FindsObject(pages, 1);
    FindsObject(pages, 2);
    CatalogNamesTree(pages);
    TreeNamesPages(pages);
  }

  // ---------------------------------------------------------------- the contents of a page

  function Fed(lines: seq<string>): seq<string> {
    if lines == [] then [] else [LineFeeds(lines[0])] + Fed(lines[1..])
  }

  /** The stream from line `k` on. */
  function ShowsFrom(lines: seq<string>, k: nat): string
    requires k <= |lines|
    decreases |lines| - k
  {
    if k == |lines| then "ET"
    else Open(k) + (Encode(Escape(lines[k])) + ")" + (" Tj\n" + ShowsFrom(lines, k + 1)))
  }

  lemma OneShow(open: string, escaped: string, rest: string)
    ensures open + (escaped + ")" + (" Tj\n" + rest)) == (open + escaped + ") Tj\n") + rest
  {
  }

  lemma {:induction false} ShowsAll(lines: seq<string>, k: nat)
    requires k <= |lines|
    ensures Shows(lines[..k]) + ShowsFrom(lines, k) == Shows(lines) + "ET"
    decreases |lines| - k
  {
    hide Escape, Encode;
    if k == |lines| {
      assert lines[..k] == lines;
    } else {
      var before, rest := Shows(lines[..k]), ShowsFrom(lines, k + 1);
      var one := Open(k) + Encode(Escape(lines[k])) + ") Tj\n";
      OneShow(Open(k), Encode(Escape(lines[k])), rest);
      OneMoreShow(lines, k);
      assert before + (one + rest) == (before + one) + rest;
      ShowsAll(lines, k + 1);
    }
  }

  ghost predicate LinesAreLatin1(lines: seq<string>) {
    forall i :: 0 <= i < |lines| ==> IsLatin1(lines[i])
  }

  lemma {:induction false} ShowsAreLatin1(lines: seq<string>, k: nat)
    requires k <= |lines|
    ensures IsLatin1(ShowsFrom(lines, k))
    decreases |lines| - k
  {
    hide Encode, IsLatin1, Escape;
    ShowWords();
    if k < |lines| {
      var rest := ShowsFrom(lines, k + 1);
      ShowsAreLatin1(lines, k + 1);
      EncodeIff(Escape(lines[k]));
      OneShow(Open(k), Encode(Escape(lines[k])), rest);
      Latin1Concat(Open(k), Encode(Escape(lines[k])));
      Latin1Concat(Open(k) + Encode(Escape(lines[k])), ") Tj\n");
      Latin1Concat(Open(k) + Encode(Escape(lines[k])) + ") Tj\n", rest);
    }
  }

  lemma {:induction false} ReadsShows(lines: seq<string>, k: nat)
    requires k <= |lines| && LinesAreLatin1(lines)
    ensures ShownLines(ShowsFrom(lines, k), k == 0) == Some(Fed(lines[k..]))
    decreases |lines| - k
  {
    hide Escape, Encode, ReadLiteral, LineFeeds, Skip, IsLatin1;
    if k < |lines| {
      var rest := ShowsFrom(lines, k + 1);
      var text := Encode(Escape(lines[k])) + ")" + (" Tj\n" + rest);
      SkipThe(Open(k), text);
      ShowsAreLatin1(lines, k + 1);
      ShowEnd(rest);
      EncodeIff(" Tj\n" + rest);
      ReadsEncodedIff(lines[k], " Tj\n" + rest);
      SkipThe(" Tj\n", rest);
      ReadsShows(lines, k + 1);
      assert lines[k..][1..] == lines[k + 1..];
      assert (Open(k) + text)[0] != 'E';
    }
  }

  lemma ShowEnd(rest: string)
    requires IsLatin1(rest)
    ensures IsLatin1(" Tj\n" + rest)
  {
    Latin1Concat(" Tj\n", rest);
  }

  /** What a reader takes out of a Latin-1 stream is Latin-1. */
  lemma {:induction false} ShownIsLatin1(s: string, first: bool)
    requires IsLatin1(s)
    ensures ShownLines(s, first).Some? ==> LinesAreLatin1(ShownLines(s, first).value)
    decreases |s|
  {
    hide ReadLiteral;
    if s != "ET" {
      var open := Skip(s, if first then "(" else "T* (");
      if open.Some? {
        SuffixIsLatin1(s, if first then "(" else "T* (");
        ReadIsLatin1(open.value, 0);
        var text := ReadLiteral(open.value, 0);
        if text.Some? {
          SuffixIsLatin1(text.value.1, " Tj\n");
          var rest := Skip(text.value.1, " Tj\n");
          if rest.Some? && |rest.value| < |s| {
            ShownIsLatin1(rest.value, false);
          }
        }
      }
    }
  }

  lemma SuffixIsLatin1(s: string, literal: string)
    requires IsLatin1(s)
    ensures Skip(s, literal).Some? ==> IsLatin1(Skip(s, literal).value)
  {
  }

  lemma {:induction false} FedIsLatin1Iff(lines: seq<string>)
    ensures LinesAreLatin1(Fed(lines)) <==> LinesAreLatin1(lines)
  {
    hide IsLatin1, LineFeeds;
    if lines != [] {
      FedIsLatin1Iff(lines[1..]);
      LineFeedsIsLatin1Iff(lines[0]);
      assert lines == [lines[0]] + lines[1..] && Fed(lines) == [LineFeeds(lines[0])] + Fed(lines[1..]);
      LinesOf(lines[0], lines[1..]);
      LinesOf(LineFeeds(lines[0]), Fed(lines[1..]));
    }
  }

  lemma LinesOf(line: string, lines: seq<string>)
    ensures LinesAreLatin1([line] + lines) <==> IsLatin1(line) && LinesAreLatin1(lines)
  {
    hide IsLatin1;
    assert LinesAreLatin1([line] + lines) ==> forall i :: 0 <= i < |lines| ==> ([line] + lines)[i + 1] == lines[i];
    assert ([line] + lines)[0] == line;
  }

  /** What a reader sees on a page: the strings its stream shows. */
  function Seen(lines: seq<string>): Option<seq<string>> {
    ShownLines(Shows(lines) + "ET", true)
  }

  /** A page shows its lines exactly when they are Latin-1; otherwise the encoding has changed them. */
  lemma SeenIff(lines: seq<string>)
    ensures Seen(lines) == Some(Fed(lines)) <==> LinesAreLatin1(lines)
    ensures Seen(lines).Some? ==> LinesAreLatin1(Seen(lines).value)
  {
    hide Shows, ShowsFrom, ShownLines, Fed, IsLatin1, LinesAreLatin1;
    ShowsAll(lines, 0);
    assert lines[..0] == [] && lines[0..] == lines;
    EmptyShows(ShowsFrom(lines, 0));
    ShowsAreLatin1(lines, 0);
    ShownIsLatin1(ShowsFrom(lines, 0), true);
    FedIsLatin1Iff(lines);
    if LinesAreLatin1(lines) {
      ReadsShows(lines, 0);
    }
  }

  /** The beginning of a text as a reader takes it apart. */
  function BeginningText(b: Beginning, rest: string): string {
    var fromY := Decimal(b.y) + (" Td\n" + rest);
    var fromX := Decimal(b.x) + (" " + fromY);
    var fromLeading := Decimal(b.leading) + (" TL " + fromX);
    var fromSize := Decimal(b.size) + (" Tf " + fromLeading);
    "BT /" + (b.name + (" " + fromSize))
  }

  lemma ReadsBeginning(b: Beginning, rest: string)
    requires b.name != "" && ' ' !in b.name
    ensures BeginningOf(BeginningText(b, rest)) == Some((b, rest))
  {
    hide Number, Skip, Decimal, Name;
    var sixth := " Td\n" + rest;
    var fifth := " " + (Decimal(b.y) + sixth);
    var fourth := " TL " + (Decimal(b.x) + fifth);
    var third := " Tf " + (Decimal(b.leading) + fourth);
    var second := " " + (Decimal(b.size) + third);
    SkipThe("BT /", b.name + second);
    NameThe(b.name, second);
    SkipThe(" ", Decimal(b.size) + third);
    NumberThe(b.size, third);
    SkipThe(" Tf ", Decimal(b.leading) + fourth);
    NumberThe(b.leading, fourth);
    SkipThe(" TL ", Decimal(b.x) + fifth);
    NumberThe(b.x, fifth);
    SkipThe(" ", Decimal(b.y) + sixth);
    NumberThe(b.y, sixth);
    SkipThe(" Td\n", rest);
  }

  lemma BeginTextIs(size: string, leading: string, x: string, y: string, rest: string)
    ensures "BT /F1 " + size + " Tf " + leading + " TL " + x + " " + y + " Td\n" + rest ==
            "BT /" + ("F1" + (" " + (size + (" Tf " + (leading + (" TL " + (x + (" " + (y + (" Td\n" + rest))))))))))
  {
    assert "BT /F1 " == "BT /" + "F1" + " ";
  }

  /** Every text is set in 9 points, its lines 12 points apart, and starts at (40, 800). */
  lemma BeginsText(rest: string)
    ensures BeginningOf(BeginText() + rest) == Some((Beginning("F1", 9, 12, 40, 800), rest))
  {
    hide Decimal, BeginningOf;
    BeginTextIs(Decimal(FONT_SIZE), Decimal(LEADING), Decimal(LEFT), Decimal(TOP), rest);
    ReadsBeginning(Beginning("F1", FONT_SIZE, LEADING, LEFT, TOP), rest);
  }

  /** The length of a stream leads to its end, whatever the lines are. */
  lemma FindsStream(lines: seq<string>, end: string)
    ensures StreamText(Content(Stream(lines)) + ("\nendobj\n" + end)) ==
            match Seen(lines) case None => None case Some(texts) => Some((Beginning("F1", 9, 12, 40, 800), texts))
  {
    hide Content, Shows, StreamText, ShownLines, BeginText, BeginningOf;
    var shown := Shows(lines) + "ET";
    assert Stream(lines) == BeginText() + shown;
    ReadsContent(Stream(lines), end);
    BeginsText(shown);
  }

  /** What a stream says once it is cut out at its length. */
  function TextOf(stream: string): Option<(Beginning, seq<string>)> {
    var beginning :- BeginningOf(stream);
    var shown :- ShownLines(beginning.1, true);
    Some((beginning.0, shown))
  }

  lemma ReadsContent(stream: string, end: string)
    ensures StreamText(Content(stream) + ("\nendobj\n" + end)) == TextOf(stream)
  {
    hide Number, Skip, Decimal, ShownLines, BeginningOf;
    var n := |stream|;
    var tail := "\nendstream\nendobj\n" + end;
    var after := " >>\nstream\n" + (stream + tail);
    AroundStream("<< /Length " + Decimal(n), stream, end);
    assert "<< /Length " + (Decimal(n) + after) == "<< /Length " + Decimal(n) + after;
    SkipThe("<< /Length ", Decimal(n) + after);
    NumberThe(n, after);
    SkipThe(" >>\nstream\n", stream + tail);
    assert (stream + tail)[..n] == stream && (stream + tail)[n..] == tail;
    SkipThe("\nendstream\nendobj\n", end);
  }

  /** Read to its length, a stream shows exactly the lines of its page when, and only when, they are Latin-1. */
  lemma ReadsStreamIff(lines: seq<string>, end: string)
    ensures StreamText(Content(Stream(lines)) + ("\nendobj\n" + end)) ==
            Some((Beginning("F1", 9, 12, 40, 800), Fed(lines))) <==>
            LinesAreLatin1(lines)
  {
    hide Content, Stream, StreamText, Seen, Fed, LinesAreLatin1;
    FindsStream(lines, end);
    SeenIff(lines);
  }

  lemma EmptyShows(rest: string)
    ensures Shows([]) + rest == rest
  {
  }

  lemma AroundStream(head: string, stream: string, end: string)
    ensures head + " >>\nstream\n" + stream + "\nendstream" + ("\nendobj\n" + end)
         == head + (" >>\nstream\n" + (stream + ("\nendstream\nendobj\n" + end)))
  {
    assert "\nendstream" + ("\nendobj\n" + end) == "\nendstream\nendobj\n" + end;
  }

  // ---------------------------------------------------------------- what a page names

  lemma ReadsParent(parent: nat, rest: string)
    ensures ParentOf("<< /Type /Page /Parent " + (Decimal(parent) + (" 0 R " + rest))) == Some((parent, rest))
  {
    hide Number, Skip, Decimal;
    var after := " 0 R " + rest;
    SkipThe("<< /Type /Page /Parent ", Decimal(parent) + after);
    NumberThe(parent, after);
    SkipThe(" 0 R ", rest);
  }

  /** The numbers of a box as a reader takes them apart. */
  function BoxText(box: Box, rest: string): string {
    var fromRight := Decimal(box.right) + (" " + (Decimal(box.top) + rest));
    Decimal(box.left) + (" " + (Decimal(box.bottom) + (" " + fromRight)))
  }

  lemma ReadsBox(box: Box, rest: string)
    ensures BoxOf("/MediaBox [" + BoxText(box, "] " + rest)) == Some((box, rest))
  {
    hide Number, Skip, Decimal;
    var fourth := "] " + rest;
    var third := " " + (Decimal(box.top) + fourth);
    var second := " " + (Decimal(box.right) + third);
    var first := " " + (Decimal(box.bottom) + second);
    SkipThe("/MediaBox [", Decimal(box.left) + first);
    NumberThe(box.left, first);
    SkipThe(" ", Decimal(box.bottom) + second);
    NumberThe(box.bottom, second);
    SkipThe(" ", Decimal(box.right) + third);
    NumberThe(box.right, third);
    SkipThe(" ", Decimal(box.top) + fourth);
    NumberThe(box.top, fourth);
    SkipThe("] ", rest);
  }

  lemma ReadsFont(name: string, font: nat, rest: string)
    requires name != "" && ' ' !in name
    ensures FontOf("/Resources << /Font << /" + (name + (" " + (Decimal(font) + (" 0 R >> >> " + rest))))) ==
            Some((name, font, rest))
  {
    hide Number, Skip, Decimal, Name;
    var after := " 0 R >> >> " + rest;
    var second := " " + (Decimal(font) + after);
    SkipThe("/Resources << /Font << /", name + second);
    NameThe(name, second);
    SkipThe(" ", Decimal(font) + after);
    NumberThe(font, after);
    SkipThe(" 0 R >> >> ", rest);
  }

  lemma ReadsContentsOf(n: nat, end: string)
    ensures ContentsOf("/Contents " + (Decimal(n) + (" 0 R >>\n" + end))) == Some(n)
  {
    hide Number, Skip, Decimal;
    var after := " 0 R >>\n" + end;
    SkipThe("/Contents ", Decimal(n) + after);
    NumberThe(n, after);
    SkipThe(" 0 R >>\n", end);
  }

  lemma GroupSix(a: string, b: string, c: string, d: string, e: string, f: string)
    ensures a + b + c + d + e + f == a + (b + (c + (d + (e + f))))
  {
  }

  lemma Shifted(p: string, a: string, b: string, a': string, b': string, rest: string)
    requires a + b == a' + b'
    ensures (p + a) + (b + rest) == p + (a' + (b' + rest))
  {
    assert (p + a) + (b + rest) == p + ((a + b) + rest);
    assert p + (a' + (b' + rest)) == p + ((a' + b') + rest);
  }

  /** The parts of a page, as a reader finds them. */
  lemma PageIs(parent: string, font: string, contents: string, end: string)
    ensures var fonts := "/Resources << /Font << /F1 ";
            var last := contents + (" 0 R >>\n" + ("endobj\n" + end));
            var middle := font + (" 0 R >> >> " + ("/Contents " + last));
            "<< /Type /Page /Parent " + (parent + " 0 R") + " /MediaBox [" + "0 0 595 842" + "] "
            + fonts + (font + " 0 R") + " >> >> /Contents " + (contents + " 0 R") + " >>" + ("\nendobj\n" + end) ==
            "<< /Type /Page /Parent "
            + (parent + (" 0 R " + ("/MediaBox [" + ("0 0 595 842" + ("] " + (fonts + middle))))))
  {
    var start, fonts, tail := "<< /Type /Page /Parent ", "/Resources << /Font << /F1 ", " >>" + ("\nendobj\n" + end);
    PageWordsMeet(end);
    Shifted(contents, " 0 R", tail, " 0 R >>\n", "endobj\n" + end, "");
    assert tail + "" == tail && "endobj\n" + end + "" == "endobj\n" + end;
    var last := contents + (" 0 R >>\n" + ("endobj\n" + end));
    Shifted(font, " 0 R", " >> >> /Contents ", " 0 R >> >> ", "/Contents ", last);
    var middle := font + (" 0 R >> >> " + ("/Contents " + last));
    var box := "0 0 595 842" + ("] " + (fonts + middle));
    Shifted(parent, " 0 R", " /MediaBox [", " 0 R ", "/MediaBox [", box);
    var head := start + (parent + " 0 R") + " /MediaBox [" + "0 0 595 842" + "] ";
    GroupSix(head, fonts, font + " 0 R", " >> >> /Contents ", contents + " 0 R", tail);
    assert head + fonts + (font + " 0 R") + " >> >> /Contents " + (contents + " 0 R") + " >>" + ("\nendobj\n" + end) ==
           head + fonts + (font + " 0 R") + " >> >> /Contents " + (contents + " 0 R") + tail;
    GroupSix(start, parent + " 0 R", " /MediaBox [", "0 0 595 842", "] ", fonts + middle);
  }

  lemma PageWordsMeet(end: string)
    ensures " 0 R" + " /MediaBox [" == " 0 R " + "/MediaBox ["
    ensures " 0 R" + " >> >> /Contents " == " 0 R >> >> " + "/Contents "
    ensures " 0 R" + (" >>" + ("\nendobj\n" + end)) == " 0 R >>\n" + ("endobj\n" + end)
  {
  }

  lemma BoxNumbers()
    ensures Decimal(0) == "0" && Decimal(595) == "595" && Decimal(842) == "842"
  {
    assert Decimal(5) == "5" && Decimal(8) == "8";
    assert Decimal(59) == "5" + "9" && Decimal(84) == "8" + "4";
    assert Decimal(595) == Decimal(59) + "5" && Decimal(842) == Decimal(84) + "2";
  }

  lemma BoxIs(rest: string)
    ensures "0 0 595 842" + rest == BoxText(Box(0, 0, 595, 842), rest)
  {
    hide Decimal;
    BoxNumbers();
    var rows := "595" + (" " + ("842" + rest));
    assert "0 0 595 842" == "0" + " " + "0" + " " + ("595" + " " + "842");
    assert "0" + " " + "0" + " " + ("595" + " " + "842") + rest == "0" + (" " + ("0" + (" " + rows)));
  }

  /** Every page belongs to object 2, measures 595 by 842 points, and calls object 3 its font F1. */
  lemma ReadsEntry(contents: nat, end: string)
    ensures EntryOf(PageText(contents) + ("\nendobj\n" + end)) ==
            Some(PageEntry(2, Box(0, 0, 595, 842), "F1", 3, contents))
  {
    hide Decimal, ParentOf, BoxOf, FontOf, ContentsOf;
    PageIs(Decimal(2), Decimal(3), Decimal(contents), end);
    var fourth := "/Contents " + (Decimal(contents) + (" 0 R >>\n" + ("endobj\n" + end)));
    var third := "/Resources << /Font << /" + ("F1" + (" " + (Decimal(3) + (" 0 R >> >> " + fourth))));
    assert "/Resources << /Font << /F1 " + (Decimal(3) + (" 0 R >> >> " + fourth)) == third by {
      assert "/Resources << /Font << /F1 " == "/Resources << /Font << /" + "F1" + " ";
    }
    BoxIs("] " + third);
    var second := "/MediaBox [" + ("0 0 595 842" + ("] " + third));
    ReadsParent(2, second);
    ReadsBox(Box(0, 0, 595, 842), third);
    ReadsFont("F1", 3, fourth);
    ReadsContentsOf(contents, "endobj\n" + end);
  }

  lemma TypefaceIs(end: string)
    ensures "/Type1 /BaseFont /Helvetica >>" + ("\nendobj\n" + end) ==
            "/Type1 /BaseFont /" + ("Helvetica" + (" >>\n" + ("endobj\n" + end)))
  {
    assert "/Type1 /BaseFont /Helvetica >>" == "/Type1 /BaseFont /" + "Helvetica" + " >>";
    assert " >>" + ("\nendobj\n" + end) == " >>\n" + ("endobj\n" + end);
  }

  lemma ReadsTypeface(end: string)
    ensures TypefaceOf(FONT + ("\nendobj\n" + end)) == Some("Helvetica")
  {
    hide Skip, Name;
    var after := " >>\n" + ("endobj\n" + end);
    var font := "/Type1 /BaseFont /Helvetica >>" + ("\nendobj\n" + end);
    TypefaceIs(end);
    assert FONT + ("\nendobj\n" + end) == "<< /Type /Font /Subtype " + font;
    SkipThe("<< /Type /Font /Subtype ", font);
    SkipThe("/Type1 /BaseFont /", "Helvetica" + after);
    NameThe("Helvetica", after);
    SkipThe(" >>\n", "endobj\n" + end);
  }

  // ---------------------------------------------------------------- the whole file

  /** A page of Helvetica in 9 points, with line `k` at (40, 800 - 12 k). */
  function SheetOf(texts: seq<string>): Sheet {
    Sheet(Box(0, 0, 595, 842), "Helvetica", 9, 12, Placed(texts, 40, 800, 12))
  }

  lemma ReadsPage(pages: seq<seq<string>>, i: nat)
    requires i < |pages| && Fits(pages)
    ensures ReadPage(File(pages), XrefStart(pages), 2, 4 + 2 * i) ==
            match Seen(pages[i]) case None => None case Some(texts) => Some(SheetOf(texts))
  {
    hide File, XrefStart, ObjectAt, Following, ObjectText, EntryOf, TypefaceOf, StreamText, Content, Stream, PageText,
      Seen;
    FindsObject(pages, 3);
    FindsObject(pages, 4 + 2 * i);
    FindsObject(pages, 5 + 2 * i);
    FirstObjects(pages);
    PageObjects(pages, i);
    ReadsEntry(5 + 2 * i, Following(pages, 4 + 2 * i));
    ReadsTypeface(Following(pages, 3));
    FindsStream(pages[i], Following(pages, 5 + 2 * i));
  }

  /** What a reader sees on the pages, or nothing when it cannot read one of them. */
  function SeenPages(pages: seq<seq<string>>): Option<seq<seq<string>>> {
    if pages == [] then Some([])
    else
      var front :- SeenPages(pages[..|pages| - 1]);
      var last :- Seen(pages[|pages| - 1]);
      Some(front + [last])
  }

  function FedPages(pages: seq<seq<string>>): (fed: seq<seq<string>>)
    ensures |fed| == |pages|
  {
    if pages == [] then [] else FedPages(pages[..|pages| - 1]) + [Fed(pages[|pages| - 1])]
  }

  function SheetsOf(pages: seq<seq<string>>): (sheets: seq<Sheet>)
    ensures |sheets| == |pages| && forall i :: 0 <= i < |pages| ==> sheets[i] == SheetOf(pages[i])
  {
    if pages == [] then [] else SheetsOf(pages[..|pages| - 1]) + [SheetOf(pages[|pages| - 1])]
  }

  function TextsOf(sheet: Sheet): seq<string> {
    seq(|sheet.lines|, k requires 0 <= k < |sheet.lines| => sheet.lines[k].text)
  }

  function PagesOfSheets(sheets: seq<Sheet>): seq<seq<string>> {
    seq(|sheets|, i requires 0 <= i < |sheets| => TextsOf(sheets[i]))
  }

  lemma SheetsHoldPages(pages: seq<seq<string>>)
    ensures PagesOfSheets(SheetsOf(pages)) == pages
  {
    hide SheetOf;
    forall i | 0 <= i < |pages| ensures TextsOf(SheetOf(pages[i])) == pages[i] {
      SheetHoldsTexts(pages[i]);
    }
  }

  lemma SheetHoldsTexts(texts: seq<string>)
    ensures TextsOf(SheetOf(texts)) == texts
  {
  }

  lemma {:induction false} ReadsPages(pages: seq<seq<string>>, k: nat)
    requires k <= |pages| && Fits(pages)
    ensures ReadPages(File(pages), XrefStart(pages), 2, PageNumbers(k)) ==
            match SeenPages(pages[..k]) case None => None case Some(texts) => Some(SheetsOf(texts))
  {
    hide File, XrefStart, ReadPage, Seen, Fits, SheetOf;
    if k > 0 {
      ReadsPages(pages, k - 1);
      ReadsPage(pages, k - 1);
      assert PageNumbers(k)[..k - 1] == PageNumbers(k - 1);
      assert pages[..k][..k - 1] == pages[..k - 1];
    }
  }

  /**
   A reader that follows the file's own references comes to every page, in order: the offsets, the
   start of the table, the stream lengths and all references are right, whatever the text is. Each
   page is that of `SheetOf`.
   */
  lemma FindsEveryPage(pages: seq<seq<string>>)
    requires Fits(pages) && pages != []
    ensures ReadPdf(File(pages)) ==
            match SeenPages(pages) case None => None case Some(texts) => Some(SheetsOf(texts))
  {
    hide File, XrefStart, StartXref, PageTree, ReadPages, PageNumbers, SeenPages, SheetsOf;
    FindsHeader(pages);
    FindsStart(pages);
    FindsPages(pages);
    ReadsPages(pages, |pages|);
    assert pages[..|pages|] == pages;
  }

  /** All lines start on the paper with room for their letters, and each is a line below the one before. */
  ghost predicate OnPaper(sheet: Sheet) {
    var box, lines := sheet.box, sheet.lines;
    && sheet.size <= sheet.leading
    && (forall k :: 0 <= k < |lines| ==>
                      && box.left <= lines[k].x < box.right
                      && box.bottom <= lines[k].y && lines[k].y + sheet.size <= box.top)
    && (forall k :: 0 < k < |lines| ==>
                      lines[k].x == lines[k - 1].x && lines[k].y == lines[k - 1].y - sheet.leading)
  }

  /** A page has room for 67 lines, which is more than the writer puts on one. */
  lemma OnPaperIff(texts: seq<string>)
    ensures OnPaper(SheetOf(texts)) <==> |texts| <= 67
  {
    var sheet := SheetOf(texts);
    if |texts| > 67 {
      assert sheet.lines[67].y == -4;
    }
  }

  ghost predicate PagesAreLatin1(pages: seq<seq<string>>) {
    forall i :: 0 <= i < |pages| ==> LinesAreLatin1(pages[i])
  }

  lemma {:induction false} SeenPagesIff(pages: seq<seq<string>>)
    ensures SeenPages(pages) == Some(FedPages(pages)) <==> PagesAreLatin1(pages)
    ensures SeenPages(pages).Some? ==> PagesAreLatin1(SeenPages(pages).value)
  {
    hide Seen, Fed, LinesAreLatin1;
    if pages != [] {
      var n := |pages| - 1;
      SeenPagesIff(pages[..n]);
      SeenIff(pages[n]);
      PagesOf(pages[..n], pages[n]);
      assert pages == pages[..n] + [pages[n]];
      if SeenPages(pages[..n]).Some? && Seen(pages[n]).Some? {
        var front, last := SeenPages(pages[..n]).value, Seen(pages[n]).value;
        PagesOf(front, last);
        LastOf(front, last, FedPages(pages[..n]), Fed(pages[n]));
      }
    }
  }

  lemma PagesOf(pages: seq<seq<string>>, last: seq<string>)
    ensures PagesAreLatin1(pages + [last]) <==> PagesAreLatin1(pages) && LinesAreLatin1(last)
  {
    hide LinesAreLatin1;
    assert PagesAreLatin1(pages + [last]) ==> forall i :: 0 <= i < |pages| ==> (pages + [last])[i] == pages[i];
    assert (pages + [last])[|pages|] == last;
  }

  lemma LastOf<T>(a: seq<T>, x: T, b: seq<T>, y: T)
    ensures a + [x] == b + [y] <==> a == b && x == y
  {
    if a + [x] == b + [y] {
      assert a == (a + [x])[..|a + [x]| - 1] && b == (b + [y])[..|b + [y]| - 1];
      assert x == (a + [x])[|a + [x]| - 1] && y == (b + [y])[|b + [y]| - 1];
    }
  }

  /**
   The reader gets every page with its lines, carriage returns as line feeds, exactly when all lines
   are Latin-1 text.
   */
  lemma ReadsFileIff(pages: seq<seq<string>>)
    requires Fits(pages) && pages != []
    ensures ReadPdf(File(pages)) == Some(SheetsOf(FedPages(pages))) <==> PagesAreLatin1(pages)
  {
    hide ReadPdf, File, SeenPages, FedPages, PagesAreLatin1, SheetsOf, PagesOfSheets;
    FindsEveryPage(pages);
    SeenPagesIff(pages);
    SheetsHoldPages(FedPages(pages));
    if SeenPages(pages).Some? {
      SheetsHoldPages(SeenPages(pages).value);
    }
  }

  lemma {:induction false} FedFlattens(pages: seq<seq<string>>)
    ensures Flatten(FedPages(pages)) == Fed(Flatten(pages))
  {
    hide LineFeeds;
    if pages != [] {
      var n := |pages| - 1;
      FedFlattens(pages[..n]);
      FlattenAppends(FedPages(pages[..n]), Fed(pages[n]));
      FlattenAppends(pages[..n], pages[n]);
      assert pages[..n] + [pages[n]] == pages;
      FedAppends(Flatten(pages[..n]), pages[n]);
    }
  }

  lemma {:induction false} FlattenAppends(pages: seq<seq<string>>, last: seq<string>)
    ensures Flatten(pages + [last]) == Flatten(pages) + last
  {
    if pages == [] {
      assert Flatten([last]) == last + Flatten([]);
    } else {
      assert (pages + [last])[1..] == pages[1..] + [last];
      FlattenAppends(pages[1..], last);
    }
  }

  lemma {:induction false} FedAppends(a: seq<string>, b: seq<string>)
    ensures Fed(a + b) == Fed(a) + Fed(b)
  {
    hide LineFeeds;
    if a == [] {
      assert a + b == b;
    } else {
      assert (a + b)[1..] == a[1..] + b;
      FedAppends(a[1..], b);
    }
  }

  lemma {:induction false} FlattenIsLatin1Iff(pages: seq<seq<string>>)
    ensures LinesAreLatin1(Flatten(pages)) <==> PagesAreLatin1(pages)
  {
    hide IsLatin1;
    if pages != [] {
      FlattenIsLatin1Iff(pages[1..]);
      LinesConcat(pages[0], Flatten(pages[1..]));
      assert pages == [pages[0]] + pages[1..];
      PagesFromFirst(pages[0], pages[1..]);
    }
  }

  lemma PagesFromFirst(first: seq<string>, pages: seq<seq<string>>)
    ensures PagesAreLatin1([first] + pages) <==> LinesAreLatin1(first) && PagesAreLatin1(pages)
  {
    hide LinesAreLatin1;
    assert PagesAreLatin1([first] + pages) ==> forall i :: 0 <= i < |pages| ==> ([first] + pages)[i + 1] == pages[i];
    assert ([first] + pages)[0] == first;
  }

  lemma LinesConcat(a: seq<string>, b: seq<string>)
    ensures LinesAreLatin1(a + b) <==> LinesAreLatin1(a) && LinesAreLatin1(b)
  {
    hide IsLatin1;
    assert LinesAreLatin1(a + b) ==> forall i :: 0 <= i < |a| ==> (a + b)[i] == a[i];
    assert LinesAreLatin1(a + b) ==> forall i :: 0 <= i < |b| ==> (a + b)[|a| + i] == b[i];
  }

  // ---------------------------------------------------------------- which tables are Latin-1

  /** Latin-1 text but for white space, which the writer turns into spaces. */
  predicate IsLatin1OrSpace(s: string) {
    forall i :: 0 <= i < |s| ==> s[i] < '\U{100}' || IsSpace(s[i])
  }

  predicate RowIsLatin1(row: seq<Option<string>>) {
    forall i :: 0 <= i < |row| ==> row[i].None? || IsLatin1OrSpace(row[i].value)
  }

  /** What can be asked of a table before it is written. */
  predicate TableIsLatin1(table: Table) {
    && IsLatin1(table.title) && IsLatin1(table.generatedAt)
    && (forall i :: 0 <= i < |table.columns| ==> IsLatin1(table.columns[i]))
    && (forall i :: 0 <= i < |table.rows| ==> RowIsLatin1(table.rows[i]))
  }

  lemma {:induction false} TrimKeepsOthers(s: string)
    ensures IsLatin1OrSpace(TrimStart(s)) <==> IsLatin1OrSpace(s)
  {
    if s != "" && IsSpace(s[0]) {
      TrimKeepsOthers(s[1..]);
    }
  }

  lemma {:induction false} SqueezeIsLatin1Iff(s: string)
    ensures IsLatin1(Squeeze(s)) <==> IsLatin1OrSpace(s)
    decreases |s|
  {
    if s != "" {
      var head := if IsSpace(s[0]) then " " else [s[0]];
      var tail := if IsSpace(s[0]) then TrimStart(s) else s[1..];
      TrimStartShorter(s);
      SqueezeIsLatin1Iff(tail);
      TrimKeepsOthers(s);
      Latin1Concat(head, Squeeze(tail));
      assert Squeeze(s) == head + Squeeze(tail);
      if !IsSpace(s[0]) {
        assert IsLatin1OrSpace(s) <==> s[0] < '\U{100}' && IsLatin1OrSpace(tail) by {
          assert s == [s[0]] + tail;
          assert IsLatin1OrSpace(s) ==> forall i :: 0 <= i < |tail| ==> tail[i] == s[i + 1];
        }
        assert head[0] == s[0];
      }
    }
  }

  lemma {:induction false} JoinIsLatin1Iff(parts: seq<string>)
    ensures IsLatin1(Join(parts, " | ")) <==> LinesAreLatin1(parts)
  {
    hide IsLatin1;
    if |parts| > 1 {
      JoinIsLatin1Iff(parts[1..]);
      BarIsLatin1();
      Latin1Concat(parts[0], " | ");
      Latin1Concat(parts[0] + " | ", Join(parts[1..], " | "));
      assert parts == [parts[0]] + parts[1..];
      LinesOf(parts[0], parts[1..]);
    } else if |parts| == 0 {
      ShowWords();
    }
  }

  lemma BarIsLatin1()
    ensures IsLatin1(" | ") && IsLatin1("Generated: ")
  {
  }

  lemma {:induction false} RowIsLatin1Iff(row: seq<Option<string>>)
    ensures LinesAreLatin1(Squeezed(row)) <==> RowIsLatin1(row)
  {
    hide IsLatin1, IsLatin1OrSpace, Squeeze, LinesAreLatin1, RowIsLatin1;
    if row == [] {
      NothingIsLatin1();
    } else {
      var text := if row[0].Some? then Squeeze(row[0].value) else "";
      RowIsLatin1Iff(row[1..]);
      ShowWords();
      LinesOf(text, Squeezed(row[1..]));
      assert Squeezed(row) == [text] + Squeezed(row[1..]);
      if row[0].Some? {
        SqueezeIsLatin1Iff(row[0].value);
      }
      RowFromFirst(row);
    }
  }

  lemma NothingIsLatin1()
    ensures LinesAreLatin1([]) && RowIsLatin1([])
  {
  }

  lemma RowFromFirst(row: seq<Option<string>>)
    requires row != []
    ensures RowIsLatin1(row) <==> (row[0].None? || IsLatin1OrSpace(row[0].value)) && RowIsLatin1(row[1..])
  {
    hide IsLatin1OrSpace;
    if RowIsLatin1(row[1..]) {
      assert forall i :: 0 < i < |row| ==> row[i] == row[1..][i - 1];
    }
  }

  lemma {:induction false} RowLinesAreLatin1Iff(rows: seq<seq<Option<string>>>)
    ensures LinesAreLatin1(RowLines(rows)) <==> forall i :: 0 <= i < |rows| ==> RowIsLatin1(rows[i])
  {
    hide IsLatin1, RowIsLatin1, Squeezed, Join;
    if rows != [] {
      var n := |rows| - 1;
      RowLinesAreLatin1Iff(rows[..n]);
      RowIsLatin1Iff(rows[n]);
      JoinIsLatin1Iff(Squeezed(rows[n]));
      var line := Join(Squeezed(rows[n]), " | ");
      LinesConcat(RowLines(rows[..n]), [line]);
      assert [line][0] == line;
      assert forall i :: 0 <= i < n ==> rows[..n][i] == rows[i];
    }
  }

  lemma {:induction false} DashesAreLatin1(n: nat)
    ensures IsLatin1(Dashes(n))
  {
    if n > 0 {
      DashesAreLatin1(n - 1);
      Latin1Concat(Dashes(n - 1), "-");
    }
  }

  lemma LinesAreLatin1Iff(table: Table)
    ensures LinesAreLatin1(TextLines(table)) <==> TableIsLatin1(table)
  {
    hide IsLatin1, RowIsLatin1, RowLines, Join, Dashes;
    var head, heading := HeadLines(table), Join(table.columns, " | ");
    RowLinesAreLatin1Iff(table.rows);
    JoinIsLatin1Iff(table.columns);
    DashesAreLatin1(AtMost120(ByteLength(heading)));
    BarIsLatin1();
    ShowWords();
    Latin1Concat("Generated: ", table.generatedAt);
    LinesConcat(head, RowLines(table.rows));
    assert LinesAreLatin1(head) <==> IsLatin1(table.title) && IsLatin1(table.generatedAt) && IsLatin1(heading) by {
      assert head[0] == table.title && head[1] == "Generated: " + table.generatedAt && head[3] == heading;
    }
  }

  lemma {:induction false} FedPagesHave(pages: seq<seq<string>>)
    ensures forall i :: 0 <= i < |pages| ==> |FedPages(pages)[i]| == |pages[i]|
  {
    hide Fed;
    if pages != [] {
      var n := |pages| - 1;
      FedPagesHave(pages[..n]);
      FedLength(pages[n]);
    }
  }

  lemma {:induction false} FedLength(lines: seq<string>)
    ensures |Fed(lines)| == |lines|
  {
    if lines != [] {
      FedLength(lines[1..]);
    }
  }

  ghost predicate AllOnPaper(sheets: seq<Sheet>) {
    forall i :: 0 <= i < |sheets| ==> OnPaper(sheets[i])
  }

  lemma FedPagesAreOnPaper(lines: seq<string>)
    ensures AllOnPaper(SheetsOf(FedPages(Pages(lines))))
  {
    hide SheetOf, OnPaper, Pages, FedPages;
    var fed := FedPages(Pages(lines));
    PagesHoldLines(lines);
    FedPagesHave(Pages(lines));
    forall i | 0 <= i < |fed| ensures OnPaper(SheetsOf(fed)[i]) {
      OnPaperIff(fed[i]);
    }
  }

  /** The lines a reader of the file gets, and whether they are on the paper. */
  ghost predicate FileShows(file: string, lines: seq<string>) {
    match ReadPdf(file)
    case None => false
    case Some(sheets) => Flatten(PagesOfSheets(sheets)) == lines && AllOnPaper(sheets)
  }

  /** The file of a table shows its lines, in order and on the paper, exactly when the table is Latin-1. */
  lemma TableIsShownIff(table: Table)
    requires Fits(Pages(TextLines(table)))
    ensures FileShows(File(Pages(TextLines(table))), Fed(TextLines(table))) <==> TableIsLatin1(table)
  {
    hide ReadPdf, File, TextLines, Fed, SeenPages, LinesAreLatin1, TableIsLatin1, AllOnPaper, SheetsOf, PagesOfSheets,
      FedPages;
    var lines := TextLines(table);
    LinesAreLatin1Iff(table);
    ManyLines(table);
    PagesHoldLines(lines);
    FindsEveryPage(Pages(lines));
    SeenPagesIff(Pages(lines));
    FedFlattens(Pages(lines));
    FlattenIsLatin1Iff(Pages(lines));
    FedIsLatin1Iff(lines);
    FedPagesAreOnPaper(lines);
    if SeenPages(Pages(lines)).Some? {
      SheetsHoldPages(SeenPages(Pages(lines)).value);
      FlattenIsLatin1Iff(SeenPages(Pages(lines)).value);
    }
  }

  // ---------------------------------------------------------------- rows stay on their lines

  lemma {:induction false} SqueezeHasNoBreak(s: string)
    ensures '\r' !in Squeeze(s) && '\n' !in Squeeze(s)
    decreases |s|
  {
    if s != "" {
      if IsSpace(s[0]) {
        TrimStartShorter(s);
        SqueezeHasNoBreak(TrimStart(s));
      } else {
        SqueezeHasNoBreak(s[1..]);
      }
    }
  }

  lemma {:induction false} JoinHasNoBreak(parts: seq<string>, c: char)
    requires c !in " | " && forall i :: 0 <= i < |parts| ==> c !in parts[i]
    ensures c !in Join(parts, " | ")
  {
    if |parts| > 1 {
      JoinHasNoBreak(parts[1..], c);
    }
  }

  lemma {:induction false} SqueezedHasNoBreak(row: seq<Option<string>>)
    ensures forall i :: 0 <= i < |Squeezed(row)| ==> '\r' !in Squeezed(row)[i] && '\n' !in Squeezed(row)[i]
  {
    if row != [] {
      SqueezedHasNoBreak(row[1..]);
      if row[0].Some? {
        SqueezeHasNoBreak(row[0].value);
      }
    }
  }

  /** Every row is one line without line breaks, so it is shown exactly as it was put together. */
  lemma {:induction false} RowsAreShownExactly(rows: seq<seq<Option<string>>>)
    ensures Fed(RowLines(rows)) == RowLines(rows)
  {
    hide Squeezed, LineFeeds, Join;
    if rows != [] {
      var n := |rows| - 1;
      var line := Join(Squeezed(rows[n]), " | ");
      RowsAreShownExactly(rows[..n]);
      FedAppends(RowLines(rows[..n]), [line]);
      SqueezedHasNoBreak(rows[n]);
      JoinHasNoBreak(Squeezed(rows[n]), '\r');
      LineFeedsIff(line);
      assert Fed([line]) == [LineFeeds(line)] + Fed([]);
    }
  }
}
