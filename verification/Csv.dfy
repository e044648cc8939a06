/** Comma-separated values: the writer of the audit reports and a reader for section 2 of RFC 4180. */
module Csv {
  import opened Options
  import opened Text

  // ---------------------------------------------------------------- writing

  predicate IsSpecial(c: char) {
    c == '"' || c == ',' || c == '\r' || c == '\n'
  }

  predicate NeedsQuotes(value: string) {
    exists i :: 0 <= i < |value| && IsSpecial(value[i])
  }

  function Doubled(value: string): string {
    if value == "" then "" else (if value[0] == '"' then "\"\"" else [value[0]]) + Doubled(value[1..])
  }

  function CsvField(value: string): string {
    if NeedsQuotes(value) then "\"" + Doubled(value) + "\"" else value
  }

  function CsvFields(cells: seq<string>): seq<string> {
    if cells == [] then [] else [CsvField(cells[0])] + CsvFields(cells[1..])
  }

  function Line(cells: seq<string>): string {
    Join(CsvFields(cells), ",")
  }

  function CsvText(records: seq<seq<string>>): string
    requires records != []
  {
    if |records| == 1 then Line(records[0]) else Line(records[0]) + "\r\n" + CsvText(records[1..])
  }

  /** A missing cell is written as an empty one. */
  function Cells(row: seq<Option<string>>): seq<string> {
    if row == [] then [] else [if row[0].Some? then row[0].value else ""] + Cells(row[1..])
  }

  function Records(columns: seq<string>, rows: seq<seq<Option<string>>>): (records: seq<seq<string>>)
    ensures |records| == 1 + |rows| && records[0] == columns
  {
    if rows == [] then [columns] else Records(columns, rows[..|rows| - 1]) + [Cells(rows[|rows| - 1])]
  }

  lemma {:induction false} CsvTextAppends(records: seq<seq<string>>, last: seq<string>)
    requires records != []
    ensures CsvText(records + [last]) == CsvText(records) + "\r\n" + Line(last)
  {
    assert (records + [last])[1..] == records[1..] + [last];
    if |records| > 1 {
      CsvTextAppends(records[1..], last);
    } else {
      assert records[1..] + [last] == [last];
    }
  }

  /** toCsv. */
  method ToCsv(columns: seq<string>, rows: seq<seq<Option<string>>>) returns (text: string)
    ensures text == CsvText(Records(columns, rows))
  {
    var lines := [Line(columns)];
    for i := 0 to |rows|
      invariant lines != [] && Join(lines, "\r\n") == CsvText(Records(columns, rows[..i]))
    {
      JoinAppends(lines, Line(Cells(rows[i])), "\r\n");
      assert rows[..i + 1][..i] == rows[..i];
      CsvTextAppends(Records(columns, rows[..i]), Cells(rows[i]));
      lines := lines + [Line(Cells(rows[i]))];
    }
    assert rows[..|rows|] == rows;
    text := Join(lines, "\r\n");
  }

  // ---------------------------------------------------------------- reading

  /** The inside of a quoted field and what follows its closing quote. */
  function ReadQuoted(s: string): (r: Option<(string, string)>)
    ensures r.Some? ==> |r.value.1| < |s|
  {
    if s == "" then None
    else if s[0] != '"' then
      match ReadQuoted(s[1..])
      case None => None
      case Some((value, rest)) => Some(([s[0]] + value, rest))
    else if |s| > 1 && s[1] == '"' then
      match ReadQuoted(s[2..])
      case None => None
      case Some((value, rest)) => Some((['"'] + value, rest))
    else Some(("", s[1..]))
  }

  function ReadPlain(s: string): (r: (string, string))
    ensures |r.1| <= |s|
  {
    if s == "" || IsSpecial(s[0]) then ("", s)
    else
      var r := ReadPlain(s[1..]);
      ([s[0]] + r.0, r.1)
  }

  function ReadField(s: string): (r: Option<(string, string)>)
    ensures r.Some? ==> |r.value.1| <= |s|
  {
    if s != "" && s[0] == '"' then ReadQuoted(s[1..]) else Some(ReadPlain(s))
  }

  /** The text starts with a line break. */
  predicate IsBreak(s: string) {
    |s| >= 2 && s[0] == '\r' && s[1] == '\n'
  }

  /** One more value in front of the first record. */
  function InFront(value: string, records: seq<seq<string>>): (r: seq<seq<string>>)
    requires records != []
    ensures r != []
  {
    [[value] + records[0]] + records[1..]
  }

  /** Records separated by line breaks; the last one may end in a line break too. */
  function ReadCsv(s: string): (r: Option<seq<seq<string>>>)
    ensures r.Some? ==> r.value != []
    decreases |s|
  {
    match ReadField(s)
    case None => None
    case Some((value, rest)) =>
      if rest == "" || (IsBreak(rest) && |rest| == 2) then Some([[value]])
      else if rest[0] == ',' then
        match ReadCsv(rest[1..])
        case None => None
        case Some(records) => Some(InFront(value, records))
      else if IsBreak(rest) then
        match ReadCsv(rest[2..])
        case None => None
        case Some(records) => Some([[value]] + records)
      else None
  }

  // ---------------------------------------------------------------- reading what was written

  /** What may follow a field. */
  predicate Ends(tail: string) {
    tail == "" || tail[0] == ',' || IsBreak(tail)
  }

  lemma {:induction false} ReadsDoubled(value: string, tail: string)
    requires Ends(tail)
    ensures ReadQuoted(Doubled(value) + "\"" + tail) == Some((value, tail))
  {
    var s := Doubled(value) + "\"" + tail;
    if value == "" {
      assert s == "\"" + tail && s[1..] == tail;
    } else {
      ReadsDoubled(value[1..], tail);
      var rest := Doubled(value[1..]) + "\"" + tail;
      if value[0] == '"' {
        assert s == "\"\"" + rest && s[2..] == rest;
      } else {
        assert s == [value[0]] + rest && s[1..] == rest;
      }
      assert value == [value[0]] + value[1..];
    }
  }

  lemma {:induction false} ReadsPlain(value: string, tail: string)
    requires !NeedsQuotes(value) && Ends(tail)
    ensures ReadPlain(value + tail) == (value, tail)
  {
    if value == "" {
      assert value + tail == tail;
    } else {
      assert !IsSpecial(value[0]);
      assert !NeedsQuotes(value[1..]) by {
        assert forall i :: 0 <= i < |value[1..]| ==> value[1..][i] == value[i + 1];
      }
      ReadsPlain(value[1..], tail);
      assert (value + tail)[1..] == value[1..] + tail && value == [value[0]] + value[1..];
    }
  }

  lemma ReadsField(value: string, tail: string)
    requires Ends(tail)
    ensures ReadField(CsvField(value) + tail) == Some((value, tail))
  {
    hide ReadQuoted, ReadPlain, Doubled;
    var s := CsvField(value) + tail;
    if NeedsQuotes(value) {
      ReadsDoubled(value, tail);
      assert s[1..] == Doubled(value) + "\"" + tail;
    } else {
      ReadsPlain(value, tail);
      assert s != "" ==> s[0] == if value != "" then value[0] else tail[0];
      assert value != "" ==> !IsSpecial(value[0]);
    }
  }

  /** The records a text starts with once its first record is read up to the line break or the end. */
  function AfterRecord(cells: seq<string>, tail: string): Option<seq<seq<string>>> {
    if |tail| <= 2 then Some([cells])
    else
      match ReadCsv(tail[2..])
      case None => None
      case Some(records) => Some([cells] + records)
  }

  lemma InFrontOfRecord(value: string, cells: seq<string>, records: seq<seq<string>>)
    ensures InFront(value, [cells] + records) == [[value] + cells] + records
  {
    assert ([cells] + records)[1..] == records;
  }

  lemma {:induction false} ReadsRecord(cells: seq<string>, tail: string)
    requires cells != [] && (tail == "" || IsBreak(tail))
    ensures ReadCsv(Line(cells) + tail) == AfterRecord(cells, tail)
  {
    hide ReadField, CsvField, ReadCsv, Line;
    if |cells| == 1 {
      ReadsLastCell(cells[0], tail);
      assert cells == [cells[0]];
    } else {
      ReadsRecord(cells[1..], tail);
      ReadsFirstCell(cells, tail);
      assert cells == [cells[0]] + cells[1..];
      if |tail| <= 2 {
        InFrontOfRecord(cells[0], cells[1..], []);
        assert [cells[1..]] + [] == [cells[1..]] && [cells] + [] == [cells];
      } else if ReadCsv(tail[2..]).Some? {
        InFrontOfRecord(cells[0], cells[1..], ReadCsv(tail[2..]).value);
      }
    }
  }

  lemma ReadsLastCell(cell: string, tail: string)
    requires tail == "" || IsBreak(tail)
    ensures ReadCsv(Line([cell]) + tail) == AfterRecord([cell], tail)
  {
    hide ReadField, CsvField;
    assert [cell][1..] == [] && CsvFields([cell]) == [CsvField(cell)];
    ReadsField(cell, tail);
  }

  lemma ReadsFirstCell(cells: seq<string>, tail: string)
    requires |cells| > 1
    ensures ReadCsv(Line(cells) + tail) ==
            match ReadCsv(Line(cells[1..]) + tail)
            case None => None
            case Some(records) => Some(InFront(cells[0], records))
  {
    hide ReadField, CsvField, InFront;
    var rest := Line(cells[1..]) + tail;
    ReadsField(cells[0], "," + rest);
    assert CsvFields(cells)[1..] == CsvFields(cells[1..]);
    assert Line(cells) + tail == CsvField(cells[0]) + ("," + rest);
    assert ("," + rest)[1..] == rest;
  }

  lemma LineIsEmpty(cells: seq<string>)
    requires cells != []
    ensures Line(cells) == "" <==> cells == [""]
  {
    if |cells| == 1 {
      assert CsvFields(cells) == [CsvField(cells[0])];
    } else {
      assert Line(cells) == CsvField(cells[0]) + "," + Join(CsvFields(cells)[1..], ",");
    }
  }

  ghost predicate NoEmptyRecord(records: seq<seq<string>>) {
    forall i :: 0 <= i < |records| ==> records[i] != []
  }

  /** A last record of one empty cell leaves no trace but a line break, which reads as the end. */
  ghost predicate LastIsSeen(records: seq<seq<string>>)
    requires records != []
  {
    |records| == 1 || records[|records| - 1] != [""]
  }

  lemma {:induction false} ReadsRecords(records: seq<seq<string>>)
    requires records != [] && NoEmptyRecord(records)
    ensures CsvText(records) == "" <==> records == [[""]]
    ensures ReadCsv(CsvText(records)) == Some(if LastIsSeen(records) then records else records[..|records| - 1])
  {
    hide ReadCsv, Line;
    LineIsEmpty(records[0]);
    if |records| == 1 {
      ReadsRecord(records[0], "");
      assert Line(records[0]) + "" == Line(records[0]);
      assert records == [records[0]];
    } else {
      ReadsRecords(records[1..]);
      ReadsFirstRecord(records[0], CsvText(records[1..]));
      assert CsvText(records) == Line(records[0]) + ("\r\n" + CsvText(records[1..]));
      assert records == [records[0]] + records[1..];
      assert records[..|records| - 1] == [records[0]] + records[1..][..|records| - 2];
    }
  }

  lemma ReadsFirstRecord(cells: seq<string>, rest: string)
    requires cells != []
    ensures ReadCsv(Line(cells) + ("\r\n" + rest)) ==
            if rest == "" then Some([cells])
            else match ReadCsv(rest) case None => None case Some(records) => Some([cells] + records)
  {
    hide ReadCsv, Line;
    ReadsRecord(cells, "\r\n" + rest);
    assert ("\r\n" + rest)[2..] == rest;
  }

  /** Records without cells are written like records with one empty cell. */
  function Filled(records: seq<seq<string>>): (filled: seq<seq<string>>)
    ensures |filled| == |records|
    ensures forall i :: 0 <= i < |records| ==> filled[i] == if records[i] == [] then [""] else records[i]
  {
    if records == [] then [] else [if records[0] == [] then [""] else records[0]] + Filled(records[1..])
  }

  lemma {:induction false} FilledIsWrittenAlike(records: seq<seq<string>>)
    requires records != []
    ensures CsvText(Filled(records)) == CsvText(records)
  {
    assert CsvFields([""]) == [""];
    if |records| > 1 {
      FilledIsWrittenAlike(records[1..]);
      assert Filled(records)[1..] == Filled(records[1..]);
    }
  }

  /**
   The reader recovers header and rows exactly when no record is without cells and the last of
   several records is not a single empty cell; tables of two columns or more always are such.
   */
  lemma RecoveredIff(columns: seq<string>, rows: seq<seq<Option<string>>>)
    ensures var records := Records(columns, rows);
            ReadCsv(CsvText(records)) == Some(records) <==> NoEmptyRecord(records) && LastIsSeen(records)
  {
    var records := Records(columns, rows);
    var filled := Filled(records);
    FilledIsWrittenAlike(records);
    assert NoEmptyRecord(filled);
    ReadsRecords(filled);
    if NoEmptyRecord(records) {
      assert filled == records;
    } else {
      var i :| 0 <= i < |records| && records[i] == [];
      assert filled[i] != records[i];
    }
  }

  lemma {:induction false} RecordsAre(columns: seq<string>, rows: seq<seq<Option<string>>>, i: nat)
    requires i < |rows|
    ensures Records(columns, rows)[i + 1] == Cells(rows[i])
  {
    if i < |rows| - 1 {
      RecordsAre(columns, rows[..|rows| - 1], i);
    }
  }

  lemma {:induction false} CellsLength(row: seq<Option<string>>)
    ensures |Cells(row)| == |row|
    ensures forall i :: 0 <= i < |row| ==> Cells(row)[i] == if row[i].Some? then row[i].value else ""
  {
    if row != [] {
      CellsLength(row[1..]);
    }
  }

  /** Tables with at least two columns are recovered whatever their cells contain. */
  lemma TwoColumnsAreRecovered(columns: seq<string>, rows: seq<seq<Option<string>>>)
    requires 2 <= |columns| && forall i :: 0 <= i < |rows| ==> |rows[i]| == |columns|
    ensures ReadCsv(CsvText(Records(columns, rows))) == Some(Records(columns, rows))
  {
    var records := Records(columns, rows);
    forall i | 0 <= i < |records| ensures |records[i]| == |columns| {
      if i > 0 {
        RecordsAre(columns, rows, i - 1);
        CellsLength(rows[i - 1]);
      }
    }
    RecoveredIff(columns, rows);
  }

  /** A last row of one empty cell is taken for the end of the text. */
  lemma LastEmptyCellIsLost()
    ensures var records := Records(["a"], [[Some("")]]);
            records == [["a"], [""]] && ReadCsv(CsvText(records)) == Some([["a"]])
  {
    var rows: seq<seq<Option<string>>> := [[Some("")]];
    assert rows[..0] == [] && rows[0][1..] == [];
    assert Cells(rows[0]) == [""];
    assert Records(["a"], []) == [["a"]];
    var records := Records(["a"], rows);
    assert records == [["a"]] + [[""]] == [["a"], [""]];
    ReadsRecords(records);
    assert records[..1] == [["a"]];
  }
}
