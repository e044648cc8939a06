/**
 A reader of PDF files that follows nothing but the file's own cross references: from
 `startxref` to the cross-reference table, through it to the catalog, the page tree, each page
 and its contents (sections 7.5.4, 7.5.5 and 7.7 of ISO 32000-1).
 */
module PdfReader {
  import opened Options
  import opened Text
  import opened PdfText
  import opened Pdf

  // ---------------------------------------------------------------- words of the reader

  function Skip(s: string, literal: string): (r: Option<string>)
    ensures r.Some? ==> |r.value| == |s| - |literal|
  {
    if |literal| <= |s| && s[..|literal|] == literal then Some(s[|literal|..]) else None
  }

  function DigitCount(s: string): (k: nat)
    ensures k <= |s| && AllDigits(s[..k])
  {
    if s == "" || !IsDigit(s[0]) then 0
    else
      var k := 1 + DigitCount(s[1..]);
      assert forall i :: 0 < i < k ==> s[..k][i] == s[1..][..k - 1][i - 1];
      k
  }

  function Number(s: string): (r: Option<(nat, string)>)
    ensures r.Some? ==> |r.value.1| < |s|
  {
    var k := DigitCount(s);
    if k == 0 then None else Some((Value(s[..k]), s[k..]))
  }

  function TrailingDigits(s: string): (d: string)
    ensures AllDigits(d)
  {
    if s == "" || !IsDigit(s[|s| - 1]) then "" else TrailingDigits(s[..|s| - 1]) + [s[|s| - 1]]
  }

  function NameLength(s: string): (k: nat)
    ensures k <= |s|
  {
    if s == "" || s[0] == ' ' then 0 else 1 + NameLength(s[1..])
  }

  /** A name after its slash, up to a space. */
  function Name(s: string): Option<(string, string)> {
    var k := NameLength(s);
    if k == 0 then None else Some((s[..k], s[k..]))
  }

  function From(file: string, at: nat): Option<string> {
    if at <= |file| then Some(file[at..]) else None
  }

  // ---------------------------------------------------------------- the cross references

  /** The number before the end of the file. */
  function StartXref(file: string): Option<nat> {
    var end := "\n%%EOF";
    if |file| < |end| || file[|file| - |end|..] != end then None
    else
      var digits := TrailingDigits(file[..|file| - |end|]);
      if digits == "" then None else Some(Value(digits))
  }

  /** Object 0 is free. */
  predicate StartsFree(lines: string) {
    20 <= |lines| && lines[..20] == "0000000000 65535 f \n"
  }

  /** The lines of the table at `x`, from object 0 on, and how many there are. */
  function XrefTable(file: string, x: nat): Option<(nat, string)> {
    var s :- From(file, x);
    var entries :- Skip(s, "xref\n0 ");
    var count :- Number(entries);
    var lines :- Skip(count.1, "\n");
    if StartsFree(lines) then Some((count.0, lines)) else None
  }

  /** A line in use: ten digits of offset and the rest of the twenty bytes. */
  function EntryOffset(line: string): Option<nat>
    requires |line| == 20
  {
    if AllDigits(line[..10]) && line[10..] == " 00000 n \n" then Some(Value(line[..10])) else None
  }

  function OffsetOf(file: string, x: nat, n: nat): Option<nat> {
    var table :- XrefTable(file, x);
    if n < table.0 && 20 * n + 20 <= |table.1| then EntryOffset(table.1[20 * n..20 * n + 20]) else None
  }

  /** What follows the heading of object `n`. */
  function ObjectAt(file: string, x: nat, n: nat): Option<string> {
    var offset :- OffsetOf(file, x, n);
    var s :- From(file, offset);
    Skip(s, Decimal(n) + " 0 obj\n")
  }

  /** The catalog a trailer names; its size is the number of table entries. */
  function RootOf(trailer: string, entries: nat): Option<nat> {
    var afterSize :- Skip(trailer, "trailer\n<< /Size ");
    var size :- Number(afterSize);
    var afterRoot :- Skip(size.1, " /Root ");
    var root :- Number(afterRoot);
    var end :- Skip(root.1, " 0 R >>\n");
    if size.0 == entries then Some(root.0) else None
  }

  function Root(file: string, x: nat): Option<nat> {
    var table :- XrefTable(file, x);
    var trailer :- From(table.1, 20 * table.0);
    RootOf(trailer, table.0)
  }

  // ---------------------------------------------------------------- pages

  /** References up to the closing bracket. */
  function ReadKids(s: string): Option<(seq<nat>, string)>
    decreases |s|
  {
    var n :- Number(s);
    var rest :- Skip(n.1, " 0 R");
    if rest != "" && rest[0] == ']' then Some(([n.0], rest[1..]))
    else
      var next :- Skip(rest, " ");
      var more :- ReadKids(next);
      Some(([n.0] + more.0, more.1))
  }

  /** The page tree a catalog names. */
  function TreeOf(catalog: string): Option<nat> {
    var reference :- Skip(catalog, "<< /Type /Catalog /Pages ");
    var tree :- Number(reference);
    var end :- Skip(tree.1, " 0 R >>\n");
    Some(tree.0)
  }

  /** The pages a page tree names, as many as it counts. */
  function KidsOf(tree: string): Option<seq<nat>> {
    var list :- Skip(tree, "<< /Type /Pages /Kids [");
    var kids :- ReadKids(list);
    var afterCount :- Skip(kids.1, " /Count ");
    var count :- Number(afterCount);
    if count.0 == |kids.0| then Some(kids.0) else None
  }

  /** The number of the page tree, and the pages it names. */
  function PageTree(file: string, x: nat): Option<(nat, seq<nat>)> {
    var root :- Root(file, x);
    var catalog :- ObjectAt(file, x, root);
    var number :- TreeOf(catalog);
    var tree :- ObjectAt(file, x, number);
    var kids :- KidsOf(tree);
    Some((number, kids))
  }

  /** The page tree a page names, and what follows. */
  function ParentOf(page: string): Option<(nat, string)> {
    var reference :- Skip(page, "<< /Type /Page /Parent ");
    var parent :- Number(reference);
    var rest :- Skip(parent.1, " 0 R ");
    Some((parent.0, rest))
  }

  /** A rectangle on the paper, in points. */
  datatype Box = Box(left: nat, bottom: nat, right: nat, top: nat)

  function BoxOf(s: string): Option<(Box, string)> {
    var first :- Skip(s, "/MediaBox [");
    var left :- Number(first);
    var second :- Skip(left.1, " ");
    var bottom :- Number(second);
    var third :- Skip(bottom.1, " ");
    var right :- Number(third);
    var fourth :- Skip(right.1, " ");
    var top :- Number(fourth);
    var rest :- Skip(top.1, "] ");
    Some((Box(left.0, bottom.0, right.0, top.0), rest))
  }

  /** The name a page gives its font, the font's object, and what follows. */
  function FontOf(s: string): Option<(string, nat, string)> {
    var first :- Skip(s, "/Resources << /Font << /");
    var name :- Name(first);
    var second :- Skip(name.1, " ");
    var font :- Number(second);
    var rest :- Skip(font.1, " 0 R >> >> ");
    Some((name.0, font.0, rest))
  }

  /** The contents a page names. */
  function ContentsOf(s: string): Option<nat> {
    var reference :- Skip(s, "/Contents ");
    var contents :- Number(reference);
    var end :- Skip(contents.1, " 0 R >>\n");
    Some(contents.0)
  }

  datatype PageEntry = PageEntry(parent: nat, box: Box, name: string, font: nat, contents: nat)

  function EntryOf(page: string): Option<PageEntry> {
    var parent :- ParentOf(page);
    var box :- BoxOf(parent.1);
    var font :- FontOf(box.1);
    var contents :- ContentsOf(font.2);
    Some(PageEntry(parent.0, box.0, font.0, font.1, contents))
  }

  /** The typeface of a font object. */
  function TypefaceOf(font: string): Option<string> {
    var subtype :- Skip(font, "<< /Type /Font /Subtype ");
    var first :- Skip(subtype, "/Type1 /BaseFont /");
    var name :- Name(first);
    var end :- Skip(name.1, " >>\n");
    Some(name.0)
  }

  /** How a text begins: its font and font size, the distance of its lines, and where it starts. */
  datatype Beginning = Beginning(name: string, size: nat, leading: nat, x: nat, y: nat)

  function BeginningOf(stream: string): Option<(Beginning, string)> {
    var first :- Skip(stream, "BT /");
    var name :- Name(first);
    var second :- Skip(name.1, " ");
    var size :- Number(second);
    var third :- Skip(size.1, " Tf ");
    var leading :- Number(third);
    var fourth :- Skip(leading.1, " TL ");
    var x :- Number(fourth);
    var fifth :- Skip(x.1, " ");
    var y :- Number(fifth);
    var rest :- Skip(y.1, " Td\n");
    Some((Beginning(name.0, size.0, leading.0, x.0, y.0), rest))
  }

  /** The strings a content stream shows. */
  function ShownLines(s: string, first: bool): Option<seq<string>>
    decreases |s|
  {
    if s == "ET" then Some([])
    else
      var open :- Skip(s, if first then "(" else "T* (");
      var text :- ReadLiteral(open, 0);
      var rest :- Skip(text.1, " Tj\n");
      if |rest| < |s| then
        var more :- ShownLines(rest, false);
        Some([text.0] + more)
      else None
  }

  /** A line of text and where its base line starts. */
  datatype Line = Line(x: int, y: int, text: string)

  /** The first text stands at the start of its stream; each further one is moved one line down by T*. */
  function Placed(texts: seq<string>, x: int, y: int, leading: int): (lines: seq<Line>)
    ensures |lines| == |texts|
    ensures forall k :: 0 <= k < |lines| ==> lines[k] == Line(x, y - leading * k, texts[k])
  {
    seq(|texts|, k requires 0 <= k < |texts| => Line(x, y - leading * k, texts[k]))
  }

  /** How a stream object begins its text, and the strings it shows: its stream is as long as it says. */
  function StreamText(body: string): Option<(Beginning, seq<string>)> {
    var afterLength :- Skip(body, "<< /Length ");
    var length :- Number(afterLength);
    var stream :- Skip(length.1, " >>\nstream\n");
    if length.0 <= |stream| then
      var end :- Skip(stream[length.0..], "\nendstream\nendobj\n");
      var beginning :- BeginningOf(stream[..length.0]);
      var shown :- ShownLines(beginning.1, true);
      Some((beginning.0, shown))
    else None
  }

  /** What is to be seen of a page. */
  datatype Sheet = Sheet(box: Box, typeface: string, size: nat, leading: nat, lines: seq<Line>)

  /** A page belongs to the tree that names it, and its text is set in the font that the page names. */
  function ReadPage(file: string, x: nat, tree: nat, n: nat): Option<Sheet> {
    var page :- ObjectAt(file, x, n);
    var entry :- EntryOf(page);
    var font :- ObjectAt(file, x, entry.font);
    var typeface :- TypefaceOf(font);
    var contents :- ObjectAt(file, x, entry.contents);
    var text :- StreamText(contents);
    var start := text.0;
    if entry.parent == tree && start.name == entry.name then
      Some(Sheet(entry.box, typeface, start.size, start.leading, Placed(text.1, start.x, start.y, start.leading)))
    else None
  }

  function ReadPages(file: string, x: nat, tree: nat, numbers: seq<nat>): Option<seq<Sheet>> {
    if numbers == [] then Some([])
    else
      var front :- ReadPages(file, x, tree, numbers[..|numbers| - 1]);
      var last :- ReadPage(file, x, tree, numbers[|numbers| - 1]);
      Some(front + [last])
  }

  function ReadPdf(file: string): Option<seq<Sheet>> {
    var version :- Skip(file, "%PDF-1.4\n");
    var x :- StartXref(file);
    var tree :- PageTree(file, x);
    ReadPages(file, x, tree.0, tree.1)
  }
}
