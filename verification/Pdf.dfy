/**
 The PDF writer of the audit reports. The functions say which bytes stand in the file; the methods
 put a text together and encode it at the end.
 */
module Pdf {
  import opened Options
  import opened Latin1
  import opened Text
  import opened PdfText

  datatype Table = Table(
    title: string, generatedAt: string, columns: seq<string>, rows: seq<seq<Option<string>>>)

  // ---------------------------------------------------------------- the lines

  /** Each run of white space becomes one space. */
  function Squeeze(s: string): string
    decreases |s|
  {
    if s == "" then ""
    else if IsSpace(s[0]) then
      TrimStartShorter(s);
      " " + Squeeze(TrimStart(s))
    else [s[0]] + Squeeze(s[1..])
  }

  function Squeezed(row: seq<Option<string>>): seq<string> {
    if row == [] then [] else [if row[0].Some? then Squeeze(row[0].value) else ""] + Squeezed(row[1..])
  }

  function Dashes(n: nat): string {
    if n == 0 then "" else Dashes(n - 1) + "-"
  }

  function AtMost120(n: nat): nat {
    if n < 120 then n else 120
  }

  function HeadLines(table: Table): seq<string> {
    var heading := Join(table.columns, " | ");
    [table.title, "Generated: " + table.generatedAt, "", heading, Dashes(AtMost120(ByteLength(heading)))]
  }

  function TextLines(table: Table): seq<string> {
    HeadLines(table) + RowLines(table.rows)
  }

  function RowLines(rows: seq<seq<Option<string>>>): seq<string> {
    if rows == [] then [] else RowLines(rows[..|rows| - 1]) + [Join(Squeezed(rows[|rows| - 1]), " | ")]
  }

  lemma {:induction false} SqueezeFrom(s: string)
    ensures Squeeze(s) == s[..FirstSpace(s)] + Squeeze(s[FirstSpace(s)..])
  {
    hide Squeeze, IsSpace, TrimStart;
    var i := FirstSpace(s);
    if i > 0 {
      SqueezeFrom(s[1..]);
      SqueezeOther(s);
      Rejoined(s, i, Squeeze(s[i..]));
    } else {
      assert s[..0] == "" && s[0..] == s;
      assert "" + Squeeze(s) == Squeeze(s);
    }
  }

  lemma Rejoined(s: string, i: nat, rest: string)
    requires 0 < i <= |s|
    ensures s[1..][i - 1..] == s[i..] && [s[0]] + (s[1..][..i - 1] + rest) == s[..i] + rest
  {
  }

  lemma SqueezeOther(s: string)
    requires s != "" && !IsSpace(s[0])
    ensures Squeeze(s) == [s[0]] + Squeeze(s[1..])
  {
  }

  /** Squeezing puts single spaces between the words of a text; white space at its ends counts as between. */
  lemma {:induction false} SqueezeJoinsWords(s: string)
    ensures Squeeze(s) == Join(Words(s), " ")
    decreases |s|
  {
    hide Squeeze, Join, TrimStart, IsSpace;
    var i := FirstSpace(s);
    SqueezeFrom(s);
    if i == |s| {
      SqueezeNothing();
      assert s[..i] == s && s[i..] == "";
      JoinOne(s, " ");
    } else {
      var rest := TrimStart(s[i..]);
      TrimStartShorter(s[i..]);
      SqueezeJoinsWords(rest);
      SqueezeSpace(s[i..]);
      JoinMore(s[..i], Words(rest), " ");
      assert s[..i] + (" " + Squeeze(rest)) == s[..i] + " " + Squeeze(rest);
    }
  }

  lemma SqueezeNothing()
    ensures Squeeze("") == ""
  {
  }

  lemma SqueezeSpace(s: string)
    requires s != "" && IsSpace(s[0])
    ensures Squeeze(s) == " " + Squeeze(TrimStart(s))
  {
  }

  lemma JoinOne(part: string, separator: string)
    ensures Join([part], separator) == part
  {
  }

  lemma JoinMore(part: string, parts: seq<string>, separator: string)
    requires parts != []
    ensures Join([part] + parts, separator) == part + separator + Join(parts, separator)
  {
    assert ([part] + parts)[1..] == parts;
  }

  /** Cells are joined with bars; a missing one is empty, and the others have their words one space apart. */
  ghost predicate IsRowLine(line: string, row: seq<Option<string>>) {
    exists cells: seq<string> ::
      && |cells| == |row| && line == Join(cells, " | ")
      && forall j :: 0 <= j < |row| ==> cells[j] == if row[j].None? then "" else Join(Words(row[j].value), " ")
  }

  lemma {:induction false} SqueezedCells(row: seq<Option<string>>)
    ensures |Squeezed(row)| == |row|
    ensures forall j :: 0 <= j < |row| ==>
                          Squeezed(row)[j] == if row[j].None? then "" else Join(Words(row[j].value), " ")
  {
    hide Squeeze, Words, Join;
    if row != [] {
      SqueezedCells(row[1..]);
      if row[0].Some? {
        SqueezeJoinsWords(row[0].value);
      }
    }
  }

  lemma {:induction false} RowLineAt(rows: seq<seq<Option<string>>>)
    ensures |RowLines(rows)| == |rows|
    ensures forall i :: 0 <= i < |rows| ==> IsRowLine(RowLines(rows)[i], rows[i])
  {
    hide IsRowLine, Squeezed, Join;
    if rows != [] {
      var n := |rows| - 1;
      RowLineAt(rows[..n]);
      SqueezedIsRowLine(rows[n]);
    }
  }

  lemma SqueezedIsRowLine(row: seq<Option<string>>)
    ensures IsRowLine(Join(Squeezed(row), " | "), row)
  {
    hide Join, Words, Squeezed;
    SqueezedCells(row);
  }

  lemma {:induction false} DashesAre(n: nat)
    ensures |Dashes(n)| == n && forall i :: 0 <= i < n ==> Dashes(n)[i] == '-'
  {
    if n > 0 {
      DashesAre(n - 1);
    }
  }

  /** The lines of a table: title, date, an empty one, the column names, as many dashes, and its rows in order. */
  lemma LinesOfTable(table: Table)
    ensures var lines := TextLines(table);
            && |lines| == 5 + |table.rows|
            && lines[..4] == [table.title, "Generated: " + table.generatedAt, "", Join(table.columns, " | ")]
            && |lines[4]| == (if ByteLength(lines[3]) <= 120 then ByteLength(lines[3]) else 120)
            && (forall i :: 0 <= i < |lines[4]| ==> lines[4][i] == '-')
            && forall i :: 0 <= i < |table.rows| ==> IsRowLine(lines[5 + i], table.rows[i])
  {
    hide Join, RowLines, IsRowLine, Dashes, ByteLength;
    RowLineAt(table.rows);
    DashesAre(AtMost120(ByteLength(Join(table.columns, " | "))));
    var lines := TextLines(table);
    assert lines[3] == Join(table.columns, " | ");
    assert lines[4] == Dashes(AtMost120(ByteLength(lines[3])));
    forall i | 0 <= i < |table.rows| ensures IsRowLine(lines[5 + i], table.rows[i]) {
      assert lines[5 + i] == RowLines(table.rows)[i];
    }
  }

  /** Pages of at most 50 lines. */
  function Pages(lines: seq<string>): seq<seq<string>> {
    if lines == [] then []
    else if |lines| <= 50 then [lines]
    else [lines[..50]] + Pages(lines[50..])
  }

  function Flatten(pages: seq<seq<string>>): seq<string> {
    if pages == [] then [] else pages[0] + Flatten(pages[1..])
  }

  /** The pages hold the lines in order; all are full but the last, and none is empty. */
  lemma {:induction false} PagesHoldLines(lines: seq<string>)
    ensures Flatten(Pages(lines)) == lines
    ensures forall i :: 0 <= i < |Pages(lines)| ==> 1 <= |Pages(lines)[i]| <= 50
    ensures forall i :: 0 <= i < |Pages(lines)| - 1 ==> |Pages(lines)[i]| == 50
  {
    if |lines| > 50 {
      PagesHoldLines(lines[50..]);
    } else if lines != [] {
      assert [lines][1..] == [];
      assert Flatten([lines]) == lines + Flatten([]);
    }
  }

  // ---------------------------------------------------------------- the objects

  /** Objects 1 to 3 are catalog, page tree and font; each page then takes two. */
  function Total(pages: seq<seq<string>>): nat {
    3 + 2 * |pages|
  }

  function Reference(n: nat): string {
    Decimal(n) + " 0 R"
  }

  /** References to the first `count` page objects. */
  function Kids(count: nat): seq<string> {
    if count == 0 then [] else Kids(count - 1) + [Reference(2 + 2 * count)]
  }

  /** A page of 595 by 842 points that names the page tree, the font and its contents. */
  function PageText(contents: nat): string {
    "<< /Type /Page /Parent " + Reference(2) + " /MediaBox [" + "0 0 595 842" + "] "
    + "/Resources << /Font << /F1 " + Reference(3) + " >> >> /Contents " + Reference(contents) + " >>"
  }

  const FONT := "<< /Type /Font /Subtype " + "/Type1 /BaseFont /Helvetica >>"

  const CATALOG := "<< /Type /Catalog " + "/Pages 2 0 R >>"

  const FONT_SIZE: nat := 9
  const LEADING: nat := 12
  const LEFT: nat := 40
  const TOP: nat := 800

  /** The font, the distance of the lines, and where the first one starts. */
  function BeginText(): string {
    "BT /F1 " + Decimal(FONT_SIZE) + " Tf " + Decimal(LEADING) + " TL " + Decimal(LEFT) + " " + Decimal(TOP) + " Td\n"
  }

  function Open(k: nat): string {
    if k == 0 then "(" else "T* ("
  }

  /** The strings of a page, one for each line. */
  function Shows(lines: seq<string>): string {
    if lines == [] then ""
    else
      var n := |lines| - 1;
      Shows(lines[..n]) + (Open(n) + Encode(Escape(lines[n])) + ") Tj\n")
  }

  function Stream(lines: seq<string>): string {
    BeginText() + Shows(lines) + "ET"
  }

  function Content(stream: string): string {
    "<< /Length " + Decimal(|stream|) + " >>\nstream\n" + stream + "\nendstream"
  }

  /** The page tree of `count` pages. */
  function Tree(count: nat): string {
    "<< /Type /Pages /Kids [" + Join(Kids(count), " ") + "] /Count " + Decimal(count) + " >>"
  }

  function ObjectText(pages: seq<seq<string>>, n: nat): string
    requires 1 <= n <= Total(pages)
  {
    if n == 1 then CATALOG
    else if n == 2 then Tree(|pages|)
    else if n == 3 then FONT
    else if n % 2 == 0 then PageText(n + 1)
    else Content(Stream(pages[(n - 5) / 2]))
  }

  // ---------------------------------------------------------------- the file

  const HEADER := "%PDF-1.4\n"

  function ObjectEntry(pages: seq<seq<string>>, n: nat): string
    requires 1 <= n <= Total(pages)
  {
    Decimal(n) + " 0 obj\n" + ObjectText(pages, n) + "\nendobj\n"
  }

  /** The first `k` objects. */
  function Body(pages: seq<seq<string>>, k: nat): string
    requires k <= Total(pages)
  {
    if k == 0 then "" else Body(pages, k - 1) + ObjectEntry(pages, k)
  }

  function Offset(pages: seq<seq<string>>, n: nat): nat
    requires 1 <= n <= Total(pages)
  {
    |HEADER + Body(pages, n - 1)|
  }

  function XrefLine(offset: nat): string {
    PadStart(Decimal(offset), 10) + " 00000 n \n"
  }

  /** The cross-reference lines of object 0, which is free, and of the first `k` objects. */
  function XrefLines(pages: seq<seq<string>>, k: nat): string
    requires k <= Total(pages)
  {
    if k == 0 then "0000000000 65535 f \n" else XrefLines(pages, k - 1) + XrefLine(Offset(pages, k))
  }

  function XrefStart(pages: seq<seq<string>>): nat {
    |HEADER + Body(pages, Total(pages))|
  }

  function Xref(pages: seq<seq<string>>): string {
    "xref\n0 " + Decimal(Total(pages) + 1) + "\n" + XrefLines(pages, Total(pages))
  }

  function Trailer(pages: seq<seq<string>>): string {
    "trailer\n<< /Size " + Decimal(Total(pages) + 1) + " /Root 1 0 R >>\nstartxref\n" + Decimal(XrefStart(pages))
    + "\n%%EOF"
  }

  function File(pages: seq<seq<string>>): string {
    HEADER + Body(pages, Total(pages)) + Xref(pages) + Trailer(pages)
  }

  // ---------------------------------------------------------------- writing it

  lemma OneMoreRow(rows: seq<seq<Option<string>>>, i: nat)
    requires i < |rows|
    ensures RowLines(rows[..i + 1]) == RowLines(rows[..i]) + [Join(Squeezed(rows[i]), " | ")]
  {
    hide Join, Squeezed;
    assert rows[..i + 1][..i] == rows[..i];
  }

  method WriteLines(table: Table) returns (textLines: seq<string>)
    ensures textLines == TextLines(table)
  {
    hide Join, Squeezed, Dashes, RowLines, ByteLength;
    textLines := [table.title, "Generated: " + table.generatedAt, ""];
    var heading := Join(table.columns, " | ");
    textLines := textLines + [heading];
    textLines := textLines + [Dashes(if 120 <= ByteLength(heading) then 120 else ByteLength(heading))];
    NoRows();
    for i := 0 to |table.rows|
      invariant textLines == HeadLines(table) + RowLines(table.rows[..i])
    {
      OneMoreRow(table.rows, i);
      textLines := textLines + [Join(Squeezed(table.rows[i]), " | ")];
    }
    assert table.rows[..|table.rows|] == table.rows;
  }

  lemma NoRows()
    ensures RowLines([]) == []
  {
  }

  lemma {:induction false} PagesFrom(lines: seq<string>, i: nat)
    requires i < |lines|
    ensures var end := if i + 50 < |lines| then i + 50 else |lines|;
            Pages(lines[i..]) == [lines[i..end]] + Pages(lines[end..])
  {
    if i + 50 < |lines| {
      assert lines[i..][..50] == lines[i..i + 50] && lines[i..][50..] == lines[i + 50..];
    } else {
      assert lines[|lines|..] == [] && lines[i..|lines|] == lines[i..];
    }
  }

  method Paginate(textLines: seq<string>) returns (pages: seq<seq<string>>)
    ensures pages == if textLines == [] then [["(no records)"]] else Pages(textLines)
  {
    pages := [];
    var i := 0;
    assert textLines[0..] == textLines;
    while i < |textLines|
      invariant 0 <= i && (i < |textLines| ==> pages + Pages(textLines[i..]) == Pages(textLines))
      invariant |textLines| <= i ==> pages == Pages(textLines)
      invariant textLines != [] && i > 0 ==> pages != []
      decreases |textLines| - i
    {
      var end := if i + 50 < |textLines| then i + 50 else |textLines|;
      PagesFrom(textLines, i);
      pages := pages + [textLines[i..end]];
      i := i + 50;
    }
    if |pages| == 0 {
      pages := [["(no records)"]];
    }
  }

  lemma ShowIsEncoded(stream: string, k: nat, escaped: string)
    ensures Encode(stream + (Open(k) + escaped + ") Tj\n")) ==
            Encode(stream) + (Open(k) + Encode(escaped) + ") Tj\n")
  {
    hide Encode, IsLatin1;
    ShowWords();
    EncodeBetween(Open(k), escaped, ") Tj\n");
    EncodeConcat(stream, Open(k) + escaped + ") Tj\n");
  }

  lemma OneMoreShow(lines: seq<string>, k: nat)
    requires k < |lines|
    ensures Shows(lines[..k + 1]) == Shows(lines[..k]) + (Open(k) + Encode(Escape(lines[k])) + ") Tj\n")
  {
    hide Encode, Escape;
    assert lines[..k + 1][..k] == lines[..k] && lines[..k + 1][k] == lines[k];
  }

  method WriteStream(pageLines: seq<string>) returns (stream: string)
    ensures Encode(stream) == Stream(pageLines)
  {
    hide Encode, IsLatin1, Shows, Escape, BeginText;
    stream := BeginText();
    BeginTextIsLatin1();
    ShowWords();
    EncodeIff(BeginText());
    EncodeIff("ET");
    NothingShown();
    for idx := 0 to |pageLines|
      invariant Encode(stream) == BeginText() + Shows(pageLines[..idx])
    {
      var escaped := Escape(pageLines[idx]);
      ShowIsEncoded(stream, idx, escaped);
      OneMoreShow(pageLines, idx);
      stream := stream + if idx == 0 then "(" + escaped + ") Tj\n" else "T* (" + escaped + ") Tj\n";
    }
    assert pageLines[..|pageLines|] == pageLines;
    EncodeConcat(stream, "ET");
    stream := stream + "ET";
  }

  lemma NothingShown()
    ensures BeginText() + Shows([]) == BeginText()
  {
  }

  /** The numbers of the page objects and of their contents. */
  method NumberPages(pages: seq<seq<string>>) returns (pageNums: seq<nat>, contentNums: seq<nat>, nextObj: nat)
    ensures |pageNums| == |contentNums| == |pages| && nextObj == Total(pages) + 1
    ensures forall i :: 0 <= i < |pages| ==> pageNums[i] == 4 + 2 * i && contentNums[i] == 5 + 2 * i
  {
    pageNums, contentNums, nextObj := [], [], 4;
    for i := 0 to |pages|
      invariant |pageNums| == |contentNums| == i && nextObj == 4 + 2 * i
      invariant forall j :: 0 <= j < i ==> pageNums[j] == 4 + 2 * j && contentNums[j] == 5 + 2 * j
    {
      pageNums := pageNums + [nextObj];
      nextObj := nextObj + 1;
      contentNums := contentNums + [nextObj];
      nextObj := nextObj + 1;
    }
  }

  function References(nums: seq<nat>): seq<string> {
    if nums == [] then [] else References(nums[..|nums| - 1]) + [Reference(nums[|nums| - 1])]
  }

  lemma {:induction false} KidsAreReferences(nums: seq<nat>)
    requires forall i :: 0 <= i < |nums| ==> nums[i] == 4 + 2 * i
    ensures References(nums) == Kids(|nums|)
  {
    if nums != [] {
      KidsAreReferences(nums[..|nums| - 1]);
    }
  }

  lemma FirstObjects(pages: seq<seq<string>>)
    ensures ObjectText(pages, 1) == CATALOG
    ensures ObjectText(pages, 2) == Tree(|pages|)
    ensures ObjectText(pages, 3) == FONT
  {
    hide Tree;
  }

  lemma PageObjects(pages: seq<seq<string>>, i: nat)
    requires i < |pages|
    ensures ObjectText(pages, 4 + 2 * i) == PageText(5 + 2 * i)
    ensures ObjectText(pages, 5 + 2 * i) == Content(Stream(pages[i]))
  {
    hide Stream, Content, PageText, Kids, Join;
    assert (4 + 2 * i) % 2 == 0 && (5 + 2 * i) % 2 == 1 && (5 + 2 * i - 5) / 2 == i;
  }

  // ---------------------------------------------------------------- what is its own encoding

  lemma PageWords()
    ensures IsLatin1("<< /Type /Page /Parent ") && IsLatin1(" /MediaBox [") && IsLatin1("0 0 595 842") && IsLatin1("] ")
  {
  }

  lemma ResourceWords()
    ensures IsLatin1("/Resources << /Font << /F1 ") && IsLatin1(" >> >> /Contents ")
  {
  }

  lemma FontWords()
    ensures IsLatin1("<< /Type /Font /Subtype ") && IsLatin1("/Type1 /BaseFont /Helvetica >>")
  {
  }

  lemma CatalogWords()
    ensures IsLatin1("<< /Type /Catalog ") && IsLatin1("/Pages 2 0 R >>") && IsLatin1(" 0 R") && IsLatin1(" >>")
  {
  }

  lemma TreeWords()
    ensures IsLatin1("<< /Type /Pages /Kids [") && IsLatin1("] /Count ") && IsLatin1(" ")
  {
  }

  lemma StreamWords()
    ensures IsLatin1("<< /Length ") && IsLatin1(" >>\nstream\n") && IsLatin1("\nendstream")
  {
  }

  lemma ObjectWords()
    ensures IsLatin1(" 0 obj\n") && IsLatin1("\nendobj\n") && IsLatin1(HEADER)
  {
  }

  lemma XrefWords()
    ensures IsLatin1("xref\n0 ") && IsLatin1("\n") && IsLatin1(" 00000 n \n") && IsLatin1("0000000000 65535 f \n")
  {
  }

  lemma TrailerWords()
    ensures IsLatin1("trailer\n<< /Size ") && IsLatin1(" /Root 1 0 R >>\nstartxref\n") && IsLatin1("\n%%EOF")
  {
  }

  lemma ShowWords()
    ensures IsLatin1(Open(0)) && IsLatin1(Open(1)) && IsLatin1(") Tj\n") && IsLatin1("ET") && IsLatin1("")
  {
  }

  lemma DecimalIsLatin1(n: nat)
    ensures IsLatin1(Decimal(n)) && Encode(Decimal(n)) == Decimal(n)
  {
    DecimalValue(n);
    EncodeIff(Decimal(n));
  }

  lemma ReferenceIsLatin1(n: nat)
    ensures IsLatin1(Reference(n))
  {
    hide IsLatin1, Decimal;
    DecimalIsLatin1(n);
    CatalogWords();
    Latin1Concat(Decimal(n), " 0 R");
  }

  lemma {:induction false} KidsAreLatin1(count: nat)
    ensures forall i :: 0 <= i < |Kids(count)| ==> IsLatin1(Kids(count)[i])
  {
    hide IsLatin1, Reference;
    if count > 0 {
      KidsAreLatin1(count - 1);
      ReferenceIsLatin1(2 + 2 * count);
    }
  }

  lemma {:induction false} JoinIsLatin1(parts: seq<string>, separator: string)
    requires IsLatin1(separator) && forall i :: 0 <= i < |parts| ==> IsLatin1(parts[i])
    ensures IsLatin1(Join(parts, separator))
  {
    if |parts| > 1 {
      JoinIsLatin1(parts[1..], separator);
      Latin1Concat(parts[0], separator);
      Latin1Concat(parts[0] + separator, Join(parts[1..], separator));
    }
  }

  lemma TreeIsLatin1(count: nat)
    ensures IsLatin1(Tree(count))
  {
    hide Join, Kids, Decimal, IsLatin1;
    var kids := Join(Kids(count), " ");
    TreeWords();
    CatalogWords();
    KidsAreLatin1(count);
    JoinIsLatin1(Kids(count), " ");
    DecimalIsLatin1(count);
    FiveAreLatin1("<< /Type /Pages /Kids [", kids, "] /Count ", Decimal(count), " >>");
  }

  lemma FiveAreLatin1(a: string, b: string, c: string, d: string, e: string)
    requires IsLatin1(a) && IsLatin1(b) && IsLatin1(c) && IsLatin1(d) && IsLatin1(e)
    ensures IsLatin1(a + b + c + d) && IsLatin1(a + b + c + d + e)
  {
    hide IsLatin1;
    Latin1Concat(a, b);
    Latin1Concat(a + b, c);
    Latin1Concat(a + b + c, d);
    Latin1Concat(a + b + c + d, e);
  }

  lemma PageIsLatin1(n: nat)
    ensures IsLatin1(PageText(n))
  {
    hide IsLatin1, Reference;
    ReferenceIsLatin1(2);
    ReferenceIsLatin1(3);
    ReferenceIsLatin1(n);
    CatalogWords();
    PageWords();
    ResourceWords();
    FiveAreLatin1("<< /Type /Page /Parent ", Reference(2), " /MediaBox [", "0 0 595 842", "] ");
    var head := "<< /Type /Page /Parent " + Reference(2) + " /MediaBox [" + "0 0 595 842" + "] ";
    FiveAreLatin1(head, "/Resources << /Font << /F1 ", Reference(3), " >> >> /Contents ", Reference(n));
    Latin1Concat(head + "/Resources << /Font << /F1 " + Reference(3) + " >> >> /Contents " + Reference(n), " >>");
  }

  lemma TextWords()
    ensures IsLatin1("BT /F1 ") && IsLatin1(" Tf ") && IsLatin1(" TL ") && IsLatin1(" ") && IsLatin1(" Td\n")
  {
  }

  lemma BeginTextIsLatin1()
    ensures IsLatin1(BeginText())
  {
    hide IsLatin1, Decimal;
    TextWords();
    DecimalIsLatin1(FONT_SIZE);
    DecimalIsLatin1(LEADING);
    DecimalIsLatin1(LEFT);
    DecimalIsLatin1(TOP);
    FiveAreLatin1("BT /F1 ", Decimal(FONT_SIZE), " Tf ", Decimal(LEADING), " TL ");
    FiveAreLatin1("BT /F1 " + Decimal(FONT_SIZE) + " Tf " + Decimal(LEADING) + " TL ",
                  Decimal(LEFT), " ", Decimal(TOP), " Td\n");
  }

  lemma LiteralsAreLatin1()
    ensures IsLatin1(FONT) && IsLatin1(CATALOG)
  {
    hide IsLatin1;
    FontWords();
    CatalogWords();
    Latin1Concat("<< /Type /Font /Subtype ", "/Type1 /BaseFont /Helvetica >>");
    Latin1Concat("<< /Type /Catalog ", "/Pages 2 0 R >>");
  }

  lemma ContentIsEncoded(stream: string)
    ensures Encode("<< /Length " + Decimal(ByteLength(stream)) + " >>\nstream\n" + stream + "\nendstream") ==
            Content(Encode(stream))
  {
    hide Decimal, Encode, IsLatin1;
    var length := Decimal(ByteLength(stream));
    StreamWords();
    DecimalIsLatin1(ByteLength(stream));
    Latin1Concat("<< /Length ", length);
    Latin1Concat("<< /Length " + length, " >>\nstream\n");
    EncodeBetween("<< /Length " + length + " >>\nstream\n", stream, "\nendstream");
  }

  method WriteObjects(pages: seq<seq<string>>) returns (objects: map<nat, string>, nextObj: nat)
    ensures nextObj == Total(pages) + 1
    ensures forall n :: 1 <= n <= Total(pages) ==> n in objects && Encode(objects[n]) == ObjectText(pages, n)
  {
    hide ObjectText, Stream, Join, Kids, References, Decimal, Encode, Content, IsLatin1, PageText;
    var pageNums, contentNums;
    pageNums, contentNums, nextObj := NumberPages(pages);
    KidsAreReferences(pageNums);
    FirstObjects(pages);
    LiteralsAreLatin1();
    TreeIsLatin1(|pages|);
    EncodeIff(CATALOG);
    EncodeIff(FONT);
    objects := map[];
    objects := objects[1 := CATALOG];
    objects := objects[2 := "<< /Type /Pages /Kids [" + Join(References(pageNums), " ") + "] /Count "
    + Decimal(|pages|) + " >>"];
    EncodeIff(objects[2]);
    objects := objects[3 := FONT];
    for i := 0 to |pages|
      invariant forall n :: 1 <= n <= 3 + 2 * i ==> n in objects && Encode(objects[n]) == ObjectText(pages, n)
    {
      PageObjects(pages, i);
      PageIsLatin1(contentNums[i]);
      EncodeIff(PageText(contentNums[i]));
      objects := objects[pageNums[i] := PageText(contentNums[i])];
      var stream := WriteStream(pages[i]);
      var length := Decimal(ByteLength(stream));
      ContentIsEncoded(stream);
      objects := objects[contentNums[i] := "<< /Length " + length + " >>\nstream\n" + stream + "\nendstream"];
    }
  }

  lemma EntryIsEncoded(n: nat, text: string)
    ensures Encode(Decimal(n) + " 0 obj\n" + text + "\nendobj\n") ==
            Decimal(n) + " 0 obj\n" + Encode(text) + "\nendobj\n"
  {
    hide Decimal, Encode, IsLatin1;
    ObjectWords();
    DecimalIsLatin1(n);
    Latin1Concat(Decimal(n), " 0 obj\n");
    EncodeBetween(Decimal(n) + " 0 obj\n", text, "\nendobj\n");
  }

  lemma AfterHeader(text: string)
    ensures Encode(HEADER + text) == HEADER + Encode(text)
  {
    hide Encode, IsLatin1;
    ObjectWords();
    EncodeConcat(HEADER, text);
    EncodeIff(HEADER);
  }

  lemma BodyGrows(body: string, before: string, n: nat, text: string)
    requires Encode(body) == before
    ensures Encode(body + (Decimal(n) + " 0 obj\n" + text + "\nendobj\n")) ==
            before + (Decimal(n) + " 0 obj\n" + Encode(text) + "\nendobj\n")
  {
    hide Decimal, Encode;
    EntryIsEncoded(n, text);
    EncodeConcat(body, Decimal(n) + " 0 obj\n" + text + "\nendobj\n");
  }

  /** The objects one after the other, and at which byte each one starts. */
  method WriteBody(pages: seq<seq<string>>, objects: map<nat, string>) returns (body: string, offsets: map<nat, nat>)
    requires forall n :: 1 <= n <= Total(pages) ==> n in objects && Encode(objects[n]) == ObjectText(pages, n)
    ensures Encode(body) == Body(pages, Total(pages))
    ensures forall n :: 1 <= n <= Total(pages) ==> n in offsets && offsets[n] == Offset(pages, n)
  {
    hide ObjectText, Decimal, Encode;
    body := "";
    EmptyIsEncoded();
    offsets := map[];
    for n := 1 to Total(pages) + 1
      invariant Encode(body) == Body(pages, n - 1)
      invariant forall k :: 1 <= k < n ==> k in offsets && offsets[k] == Offset(pages, k)
    {
      AfterHeader(body);
      offsets := offsets[n := ByteLength(HEADER + body)];
      BodyGrows(body, Body(pages, n - 1), n, objects[n]);
      body := body + (Decimal(n) + " 0 obj\n" + objects[n] + "\nendobj\n");
    }
  }

  lemma EmptyIsEncoded()
    ensures Encode("") == ""
  {
  }

  lemma LineIsLatin1(offset: nat)
    ensures IsLatin1(XrefLine(offset))
  {
    hide Decimal, PadStart;
    DecimalValue(offset);
    PadStartValue(Decimal(offset), 10);
    XrefWords();
    Latin1Concat(PadStart(Decimal(offset), 10), " 00000 n \n");
  }

  method WriteXrefLines(pages: seq<seq<string>>, offsets: map<nat, nat>) returns (lines: string)
    requires forall n :: 1 <= n <= Total(pages) ==> n in offsets && offsets[n] == Offset(pages, n)
    ensures lines == XrefLines(pages, Total(pages)) && IsLatin1(lines)
  {
    hide Offset, Decimal, PadStart, IsLatin1;
    XrefWords();
    lines := "0000000000 65535 f \n";
    for n := 1 to Total(pages) + 1
      invariant lines == XrefLines(pages, n - 1) && IsLatin1(lines)
    {
      LineIsLatin1(offsets[n]);
      Latin1Concat(lines, XrefLine(offsets[n]));
      lines := lines + (PadStart(Decimal(offsets[n]), 10) + " 00000 n \n");
    }
  }

  lemma XrefIsLatin1(size: nat, lines: string)
    requires IsLatin1(lines)
    ensures IsLatin1("xref\n0 " + Decimal(size) + "\n" + lines)
  {
    hide Decimal, IsLatin1;
    XrefWords();
    DecimalIsLatin1(size);
    Latin1Concat("xref\n0 ", Decimal(size));
    Latin1Concat("xref\n0 " + Decimal(size), "\n");
    Latin1Concat("xref\n0 " + Decimal(size) + "\n", lines);
  }

  lemma TrailerIsLatin1(size: nat, start: nat)
    ensures IsLatin1("trailer\n<< /Size " + Decimal(size) + " /Root 1 0 R >>\nstartxref\n" + Decimal(start) + "\n%%EOF")
  {
    hide Decimal, IsLatin1;
    TrailerWords();
    DecimalIsLatin1(size);
    DecimalIsLatin1(start);
    FiveAreLatin1("trailer\n<< /Size ", Decimal(size), " /Root 1 0 R >>\nstartxref\n", Decimal(start), "\n%%EOF");
  }

  lemma FileIsEncoded(body: string, xref: string, trailer: string)
    requires IsLatin1(xref) && IsLatin1(trailer)
    ensures Encode(HEADER + body + xref + trailer) == HEADER + Encode(body) + xref + trailer
  {
    hide Encode, IsLatin1;
    ObjectWords();
    Latin1Concat(xref, trailer);
    EncodeBetween(HEADER, body, xref + trailer);
    assert HEADER + body + (xref + trailer) == HEADER + body + xref + trailer;
    assert HEADER + Encode(body) + (xref + trailer) == HEADER + Encode(body) + xref + trailer;
  }

  /** toPdf. */
  method ToPdf(table: Table) returns (file: string)
    ensures file == File(Pages(TextLines(table)))
  {
    hide TextLines, Pages, ObjectText, Body, XrefLines, Decimal, Encode, IsLatin1;
    var textLines := WriteLines(table);
    var pages := Paginate(textLines);
    ManyLines(table);
    var objects, nextObj := WriteObjects(pages);
    var totalObjs := nextObj - 1;
    var body, offsets := WriteBody(pages, objects);
    AfterHeader(body);
    var xrefStart := ByteLength(HEADER + body);
    var lines := WriteXrefLines(pages, offsets);
    var xref := "xref\n0 " + Decimal(totalObjs + 1) + "\n" + lines;
    var trailer := "trailer\n<< /Size " + Decimal(totalObjs + 1) + " /Root 1 0 R >>\nstartxref\n" + Decimal(xrefStart)
    + "\n%%EOF";
    XrefIsLatin1(totalObjs + 1, lines);
    TrailerIsLatin1(totalObjs + 1, xrefStart);
    FileIsEncoded(body, xref, trailer);
    file := Encode(HEADER + body + xref + trailer);
  }

  /** There is always a line, so the page without records never comes up. */
  lemma ManyLines(table: Table)
    ensures TextLines(table) != []
  {
  }
}
