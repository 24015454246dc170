/** e2e/utils/csv.ts: the CSV writer of the import fixtures and the RFC 4180 reader of the
    export tests. The reader is a character-level state machine; the writer is map and join.
    They share no code, so that they agree is a theorem. */
module Csv {
  import opened Text

  type Row = seq<string>

  // ----- the writer -----

  /** A cell handed to toCsv; `undefined` prints as the empty field. */
  datatype Cell = Value(text: string) | Undefined

  function Shown(cell: Cell): string {
    match cell
    case Value(text) => text
    case Undefined => ""
  }

  predicate NeedsQuotes(text: string) {
    exists i | 0 <= i < |text| :: text[i] == '"' || text[i] == ',' || text[i] == '\r' || text[i] == '\n'
  }

  /** `text.replace(/"/g, '""')`. */
  function Doubled(text: string): string {
    if text == "" then ""
    else (if text[0] == '"' then "\"\"" else [text[0]]) + Doubled(text[1..])
  }

  function Escape(text: string): string {
    if NeedsQuotes(text) then "\"" + Doubled(text) + "\"" else text
  }

  /** Only a field with a quote, a comma or a line break in it is written in quotes. */
  lemma PlainFieldsStayBare(text: string)
    ensures '"' !in text && ',' !in text && '\r' !in text && '\n' !in text ==> Escape(text) == text
    ensures '"' in text || ',' in text || '\r' in text || '\n' in text ==>
      Escape(text) == "\"" + Doubled(text) + "\""
  {
  }

  function Escaped(row: Row): (r: Row)
    ensures |r| == |row|
  {
    if row == [] then [] else [Escape(row[0])] + Escaped(row[1..])
  }

  function Line(row: Row): string {
    Join(Escaped(row), ",")
  }

  function Lines(rows: seq<Row>): (r: seq<string>)
    ensures |r| == |rows|
  {
    if rows == [] then [] else [Line(rows[0])] + Lines(rows[1..])
  }

  function ShownRow(cells: seq<Cell>): (r: Row)
    ensures |r| == |cells|
  {
    if cells == [] then [] else [Shown(cells[0])] + ShownRow(cells[1..])
  }

  function ShownRows(rows: seq<seq<Cell>>): (r: seq<Row>)
    ensures |r| == |rows|
  {
    if rows == [] then [] else [ShownRow(rows[0])] + ShownRows(rows[1..])
  }

  function ToCsv(headers: Row, rows: seq<seq<Cell>>): string {
    Join(Lines([headers] + ShownRows(rows)), "\n")
  }

  // ----- the reader -----

  /** The variables of parseCsv: finished rows, the open row, the open field, and whether the
      scan is inside quotes. */
  datatype Reader = Reader(rows: seq<Row>, row: Row, field: string, quoted: bool)

  const START := Reader([], [], "", false)

  function EndField(st: Reader): Reader {
    st.(row := st.row + [st.field], field := "")
  }

  function EndRow(st: Reader): Reader {
    var done := EndField(st);
    done.(rows := done.rows + [done.row], row := [])
  }

  /** How many characters one turn of the loop eats, and the state it leaves. */
  function Turn(text: string, st: Reader): (r: (nat, Reader))
    requires text != ""
    ensures 1 <= r.0 <= |text|
  {
    if st.quoted then
      if text[0] == '"' then
        if |text| > 1 && text[1] == '"' then (2, st.(field := st.field + "\""))
        else (1, st.(quoted := false))
      else (1, st.(field := st.field + [text[0]]))
    else if text[0] == '"' then (1, st.(quoted := true))
    else if text[0] == ',' then (1, EndField(st))
    else if text[0] == '\r' || text[0] == '\n' then
      (if text[0] == '\r' && |text| > 1 && text[1] == '\n' then 2 else 1, EndRow(st))
    else (1, st.(field := st.field + [text[0]]))
  }

  function Scan(text: string, st: Reader): Reader
    decreases |text|
  {
    if text == "" then st
    else var (n, next) := Turn(text, st); Scan(text[n..], next)
  }

  function Flush(st: Reader): seq<Row> {
    if st.field != "" || st.row != [] then EndRow(st).rows else st.rows
  }

  function Read(text: string): seq<Row> {
    Flush(Scan(text, START))
  }

  /** parseCsv. */
  method ParseCsv(text: string) returns (rows: seq<Row>)
    ensures rows == Read(text)
  {
    rows := [];
    var row: Row := [];
    var field := "";
    var quoted := false;
    var i := 0;
    while i < |text|
      invariant 0 <= i <= |text|
      invariant Scan(text[i..], Reader(rows, row, field, quoted)) == Scan(text, START)
    {
      ghost var rest := text[i..];
      ghost var (n, next) := Turn(rest, Reader(rows, row, field, quoted));
      assert rest[n..] == text[i + n..];
      var c := text[i];
      if quoted {
        if c == '"' {
          if i + 1 < |text| && text[i + 1] == '"' {
            field := field + "\"";
            i := i + 2;
          } else {
            quoted := false;
            i := i + 1;
          }
        } else {
          field := field + [c];
          i := i + 1;
        }
      } else if c == '"' {
        quoted := true;
        i := i + 1;
      } else if c == ',' {
        row, field := row + [field], "";
        i := i + 1;
      } else if c == '\r' || c == '\n' {
        rows, row, field := rows + [row + [field]], [], "";
        i := i + if c == '\r' && i + 1 < |text| && text[i + 1] == '\n' then 2 else 1;
      } else {
        field := field + [c];
        i := i + 1;
      }
    }
    if field != "" || row != [] {
      rows := rows + [row + [field]];
    }
  }

  // ----- the round trip -----

  lemma {:induction false} ScanPlain(text: string, rest: string, st: Reader)
    requires !st.quoted && !NeedsQuotes(text)
    ensures Scan(text + rest, st) == Scan(rest, st.(field := st.field + text))
  {
    if text == "" {
      assert text + rest == rest && st.field + text == st.field;
    } else {
      assert (text + rest)[1..] == text[1..] + rest;
      assert st.field + [text[0]] + text[1..] == st.field + text;
      ScanPlain(text[1..], rest, st.(field := st.field + [text[0]]));
    }
  }

  lemma {:induction false} ScanQuoted(text: string, rest: string, st: Reader)
    requires st.quoted && (rest == "" || rest[0] != '"')
    ensures Scan(Doubled(text) + "\"" + rest, st)
         == Scan(rest, st.(field := st.field + text, quoted := false))
  {
    var all := Doubled(text) + "\"" + rest;
    if text == "" {
      assert all[1..] == rest && st.field + text == st.field;
    } else {
      var n := if text[0] == '"' then 2 else 1;
      assert all[n..] == Doubled(text[1..]) + "\"" + rest;
      assert st.field + [text[0]] + text[1..] == st.field + text;
      ScanQuoted(text[1..], rest, st.(field := st.field + [text[0]]));
    }
  }

  /** A separator or the end of the text: what follows a field the writer printed. */
  predicate AtFieldEnd(rest: string) {
    AtLineEnd(rest) || rest[0] == ','
  }

  predicate AtLineEnd(rest: string) {
    rest == "" || rest[0] == '\n' || rest[0] == '\r'
  }

  /** The line ends that the reader takes for one. */
  predicate IsLineEnd(eol: string) {
    eol == "\n" || eol == "\r\n" || eol == "\r"
  }

  lemma ScanField(text: string, rest: string, st: Reader)
    requires !st.quoted && st.field == "" && AtFieldEnd(rest)
    ensures Scan(Escape(text) + rest, st) == Scan(rest, st.(field := text))
  {
    assert st.field + text == text;
    if NeedsQuotes(text) {
      var body := Doubled(text) + "\"" + rest;
      assert Escape(text) + rest == "\"" + body;
      OneTurn('"', body, st);
      ScanQuoted(text, rest, st.(quoted := true));
    } else {
      ScanPlain(text, rest, st);
    }
  }

  /** One turn outside quotes, on any character but a carriage return. */
  lemma OneTurn(c: char, rest: string, st: Reader)
    requires !st.quoted && c != '\r'
    ensures Scan([c] + rest, st) == Scan(rest, Turn([c], st).1)
  {
    assert ([c] + rest)[1..] == rest;
  }

  lemma LineSplits(row: Row)
    requires row != []
    ensures Line(row) == if |row| == 1 then Escape(row[0]) else Escape(row[0]) + "," + Line(row[1..])
  {
    assert Escaped(row)[1..] == Escaped(row[1..]);
  }

  lemma ScanFirstField(row: Row, rest: string, st: Reader)
    requires |row| > 1 && !st.quoted && st.field == ""
    ensures Scan(Line(row) + rest, st)
         == Scan(Line(row[1..]) + rest, st.(row := st.row + [row[0]]))
  {
    var tail := Line(row[1..]) + rest;
    LineSplits(row);
    assert Line(row) + rest == Escape(row[0]) + ("," + tail);
    ScanField(row[0], "," + tail, st);
    OneTurn(',', tail, st.(field := row[0]));
  }

  lemma {:induction false} ScanLine(row: Row, rest: string, st: Reader)
    requires row != [] && !st.quoted && st.field == "" && AtLineEnd(rest)
    ensures Scan(Line(row) + rest, st)
         == Scan(rest, st.(row := st.row + row[..|row| - 1], field := row[|row| - 1]))
  {
    hide Scan, Escape, Line;
    if |row| == 1 {
      assert st.row + row[..0] == st.row;
      LineSplits(row);
      ScanField(row[0], rest, st);
    } else {
      ScanFirstField(row, rest, st);
      var next := st.(row := st.row + [row[0]]);
      ScanLine(row[1..], rest, next);
      assert next.row + row[1..][..|row| - 2] == st.row + row[..|row| - 1];
    }
  }

  /** The state after one whole line: its last field is still open. */
  function AfterLine(row: Row, st: Reader): Reader {
    if row == [] then st else st.(row := row[..|row| - 1], field := row[|row| - 1])
  }

  /** What the reader makes of one printed row: a row without fields is one empty field. */
  function Legible(row: Row): (r: Row) {
    if row == [] then [""] else row
  }

  /** What the reader makes of a whole printed table: a last line that is blank disappears. */
  function ReadBack(table: seq<Row>): seq<Row> {
    if table == [] then []
    else if |table| == 1 && Legible(table[0]) == [""] then []
    else [Legible(table[0])] + ReadBack(table[1..])
  }

  lemma ScanRow(row: Row, rest: string, st: Reader)
    requires st == Reader(st.rows, [], "", false) && AtLineEnd(rest)
    ensures Scan(Line(row) + rest, st) == Scan(rest, AfterLine(row, st))
    ensures EndRow(AfterLine(row, st)) == Reader(st.rows + [Legible(row)], [], "", false)
  {
    hide Scan, Doubled;
    if row == [] {
      assert Line(row) + rest == rest;
      assert [] + [""] == [""];
    } else {
      ScanLine(row, rest, st);
      assert st.row + row[..|row| - 1] == row[..|row| - 1];
      assert row[..|row| - 1] + [row[|row| - 1]] == row;
    }
  }

  lemma ScanNothing(st: Reader)
    ensures Scan("", st) == st
  {
  }

  lemma LinesSplit(table: seq<Row>, eol: string)
    requires |table| > 1
    ensures Join(Lines(table), eol) == Line(table[0]) + (eol + Join(Lines(table[1..]), eol))
  {
    assert Lines(table)[1..] == Lines(table[1..]);
  }

  /** A printed line does not start with a line feed of its own. */
  lemma LineStart(row: Row)
    ensures Line(row) == "" || Line(row)[0] != '\n'
  {
    if row != [] {
      LineSplits(row);
      assert Escape(row[0]) == "" || Escape(row[0])[0] != '\n';
    }
  }

  /** A line end closes the row, as long as it is not the first half of another one. */
  lemma LineEndRead(eol: string, rest: string, st: Reader)
    requires !st.quoted && IsLineEnd(eol) && (eol == "\r" ==> rest == "" || rest[0] != '\n')
    ensures Scan(eol + rest, st) == Scan(rest, EndRow(st))
  {
    var s := eol + rest;
    assert s[0] == eol[0] && (|eol| == 2 ==> s[1] == '\n') && (|eol| == 1 && rest != "" ==> s[1] == rest[0]);
    assert s[|eol|..] == rest;
    assert Turn(s, st) == (|eol|, EndRow(st));
  }

  lemma TailStart(table: seq<Row>, eol: string)
    requires table != [] && IsLineEnd(eol)
    ensures var tail := Join(Lines(table), eol); eol == "\r" ==> tail == "" || tail[0] != '\n'
  {
    hide Line;
    LineStart(table[0]);
    if |table| > 1 { LinesSplit(table, eol); }
  }

  lemma ScanLastRow(row: Row, st: Reader)
    requires st == Reader(st.rows, [], "", false)
    ensures Flush(Scan(Line(row), st)) == st.rows + ReadBack([row])
  {
    hide Scan, Line, EndRow;
    assert Line(row) + "" == Line(row);
    ScanRow(row, "", st);
    ScanNothing(AfterLine(row, st));
    assert [row][1..] == [] && ReadBack([]) == [];
  }

  lemma NotQuoted(row: Row, st: Reader)
    requires !st.quoted
    ensures !AfterLine(row, st).quoted
  {
  }

  lemma {:induction false} ScanTable(table: seq<Row>, eol: string, st: Reader)
    requires table != [] && st == Reader(st.rows, [], "", false) && IsLineEnd(eol)
    ensures Flush(Scan(Join(Lines(table), eol), st)) == st.rows + ReadBack(table)
  {
    hide Scan, Line, EndRow, IsLineEnd, AfterLine, Flush, AtLineEnd;
    var row := table[0];
    var after := AfterLine(row, st);
    if |table| == 1 {
      assert Join(Lines(table), eol) == Line(row) && table == [row];
      ScanLastRow(row, st);
    } else {
      var tail := Join(Lines(table[1..]), eol);
      LinesSplit(table, eol);
      LineEndStarts(eol, tail);
      ScanRow(row, eol + tail, st);
      TailStart(table[1..], eol);
      NotQuoted(row, st);
      LineEndRead(eol, tail, after);
      ScanTable(table[1..], eol, EndRow(after));
      assert st.rows + [Legible(row)] + ReadBack(table[1..]) == st.rows + ReadBack(table);
    }
  }

  lemma LineEndStarts(eol: string, rest: string)
    requires IsLineEnd(eol)
    ensures AtLineEnd(eol + rest)
  {
    assert (eol + rest)[0] == eol[0];
  }

  /** LF, CR LF or a lone CR between the rows makes no difference to the reader. */
  lemma AnyLineEndReads(table: seq<Row>, eol: string)
    requires table != [] && IsLineEnd(eol)
    ensures Read(Join(Lines(table), eol)) == ReadBack(table)
  {
    ScanTable(table, eol, START);
  }

  /** Nor does one line end after the last row: it adds no row, and it keeps a last row that is blank. */
  lemma LastLineEndReads(table: seq<Row>, eol: string)
    requires table != [] && IsLineEnd(eol) && forall i | 0 <= i < |table| :: table[i] != []
    ensures Read(Join(Lines(table), eol) + eol) == table
  {
    JoinBlank(table, eol);
    AnyLineEndReads(table + [[]], eol);
    BlankLastRow(table);
  }

  lemma {:induction false} JoinBlank(table: seq<Row>, eol: string)
    requires table != []
    ensures Join(Lines(table + [[]]), eol) == Join(Lines(table), eol) + eol
  {
    hide Line;
    assert Line([]) == "" by { NothingToPrint(); }
    var more := table + [[]];
    LinesSplit(more, eol);
    assert more[1..] == table[1..] + [[]] && more[0] == table[0];
    if |table| > 1 {
      LinesSplit(table, eol);
      JoinBlank(table[1..], eol);
      var x, y := Line(table[0]), Join(Lines(table[1..]), eol);
      assert x + (eol + (y + eol)) == x + (eol + y) + eol;
    } else {
      assert table[1..] + [[]] == [[]] && Lines([[]]) == [Line([])];
      assert Lines(table) == [Line(table[0])];
      assert Line(table[0]) + (eol + "") == Line(table[0]) + eol;
    }
  }

  lemma NothingToPrint()
    ensures Line([]) == ""
  {
  }

  lemma {:induction false} BlankLastRow(table: seq<Row>)
    requires forall i | 0 <= i < |table| :: table[i] != []
    ensures ReadBack(table + [[]]) == table
  {
    if table != [] {
      assert (table + [[]])[1..] == table[1..] + [[]] && (table + [[]])[0] == table[0];
      assert forall i | 0 <= i < |table[1..]| :: table[1..][i] == table[i + 1];
      BlankLastRow(table[1..]);
      assert table == [table[0]] + table[1..];
    }
  }

  lemma PlainStart(c: string)
    requires !NeedsQuotes(c)
    ensures c == "" || c[0] != '"'
  {
  }

  lemma QuoteOpens(st: Reader)
    requires !st.quoted
    ensures Turn("\"", st).1 == st.(quoted := true)
  {
  }

  /** Quotes may open and close in the middle of a field; what they enclose belongs to it. */
  lemma QuotesInside(a: string, b: string, c: string)
    requires !NeedsQuotes(a) && !NeedsQuotes(c)
    ensures Read(a + "\"" + Doubled(b) + "\"" + c) == if a + b + c == "" then [] else [[a + b + c]]
  {
    hide Doubled, Scan, NeedsQuotes;
    var rest := "\"" + (Doubled(b) + "\"" + c);
    PlainStart(c);
    assert a + "\"" + Doubled(b) + "\"" + c == a + rest;
    ScanPlain(a, rest, START);
    var st := START.(field := a);
    assert START.field + a == a;
    OneTurn('"', Doubled(b) + "\"" + c, st);
    QuoteOpens(st);
    ScanQuoted(b, c, st.(quoted := true));
    var closed := st.(field := a + b);
    assert c + "" == c;
    ScanPlain(c, "", closed);
    ScanNothing(closed.(field := a + b + c));
    assert [] + [a + b + c] == [a + b + c];
  }

  /** No row is without fields and the last row is not one empty field. */
  predicate Printable(table: seq<Row>) {
    && (forall i | 0 <= i < |table| :: table[i] != [])
    && (table != [] ==> table[|table| - 1] != [""])
  }

  lemma PrintableSplits(table: seq<Row>)
    requires |table| > 1
    ensures Printable(table) <==> table[0] != [] && Printable(table[1..])
  {
    var tail := table[1..];
    assert tail[|tail| - 1] == table[|table| - 1];
    assert forall i | 0 <= i < |tail| :: tail[i] == table[i + 1];
    if Printable(table) {
      forall i | 0 <= i < |tail| ensures tail[i] != [] { assert table[i + 1] != []; }
    }
  }

  lemma {:induction false} ReadBackIsIdentity(table: seq<Row>)
    ensures |ReadBack(table)| <= |table|
    ensures ReadBack(table) == table <==> Printable(table)
  {
    if |table| == 1 {
      assert table == [table[0]] && ReadBack(table[1..]) == [];
    } else if table != [] {
      var tail := table[1..];
      ReadBackIsIdentity(tail);
      PrintableSplits(table);
      hide Printable;
      assert table == [table[0]] + tail;
      assert ReadBack(table)[0] == Legible(table[0]) && ReadBack(table)[1..] == ReadBack(tail);
    }
  }

  /** Reading what toCsv printed, for every table whatsoever. */
  lemma ReadOfPrinted(headers: Row, rows: seq<seq<Cell>>)
    ensures Read(ToCsv(headers, rows)) == ReadBack([headers] + ShownRows(rows))
  {
    AnyLineEndReads([headers] + ShownRows(rows), "\n");
  }

  /** The round trip holds for exactly the printable tables: commas, quotes, CR and LF in any
      field make no difference. */
  lemma RoundTrip(headers: Row, rows: seq<seq<Cell>>)
    ensures Read(ToCsv(headers, rows)) == [headers] + ShownRows(rows)
       <==> Printable([headers] + ShownRows(rows))
  {
    ReadOfPrinted(headers, rows);
    ReadBackIsIdentity([headers] + ShownRows(rows));
  }

  // ----- records -----

  /** One data row keyed by header: a later header of the same name overwrites an earlier one,
      and a column the row does not reach reads as "". */
  function Record(headers: Row, row: Row): map<string, string> {
    if headers == [] then map[]
    else
      var n := |headers| - 1;
      Record(headers[..n], row)[headers[n] := if n < |row| then row[n] else ""]
  }

  /** parseCsvRecords. */
  method ParseCsvRecords(text: string) returns (headers: Row, records: seq<map<string, string>>)
    ensures headers == if Read(text) == [] then [] else Read(text)[0]
    ensures |records| == if Read(text) == [] then 0 else |Read(text)| - 1
    ensures forall k | 0 <= k < |records| :: records[k] == Record(headers, Read(text)[k + 1])
  {
    var rows := ParseCsv(text);
    headers := if rows == [] then [] else rows[0];
    records := [];
    var k := 1;
    while k < |rows|
      invariant |records| == if rows == [] then 0 else k - 1
      invariant rows != [] ==> 1 <= k <= |rows|
      invariant forall j | 0 <= j < |records| :: records[j] == Record(headers, rows[j + 1])
    {
      var record: map<string, string> := map[];
      for i := 0 to |headers|
        invariant record == Record(headers[..i], rows[k])
      {
        record := record[headers[i] := if i < |rows[k]| then rows[k][i] else ""];
        assert headers[..i + 1][..i] == headers[..i];
      }
      assert headers[..|headers|] == headers;
      records := records + [record];
      k := k + 1;
    }
  }

  /** A record has exactly the header names, and each holds the cell under its last column. */
  lemma {:induction false} RecordCell(headers: Row, row: Row, i: nat)
    requires i < |headers|
    requires forall j | i < j < |headers| :: headers[j] != headers[i]
    ensures headers[i] in Record(headers, row)
    ensures Record(headers, row)[headers[i]] == if i < |row| then row[i] else ""
  {
    var n := |headers| - 1;
    if i < n {
      assert headers[..n][i] == headers[i];
      RecordCell(headers[..n], row, i);
      assert headers[n] != headers[i];
    }
  }

  /** Writing a table and reading it as records gives every cell back under its header. */
  lemma RecordsRoundTrip(headers: Row, rows: seq<seq<Cell>>, k: nat, i: nat)
    requires Printable([headers] + ShownRows(rows))
    requires k < |rows| && i < |headers|
    requires forall j | i < j < |headers| :: headers[j] != headers[i]
    ensures |Read(ToCsv(headers, rows))| == |rows| + 1
    ensures var record := Record(headers, Read(ToCsv(headers, rows))[k + 1]);
            && headers[i] in record
            && record[headers[i]] == if i < |rows[k]| then Shown(rows[k][i]) else ""
  {
    RoundTrip(headers, rows);
    var row := ShownRows(rows)[k];
    assert row == ShownRow(rows[k]) by { ShownRowsAt(rows, k); }
    RecordCell(headers, row, i);
    if i < |rows[k]| { ShownRowAt(rows[k], i); }
  }

  lemma {:induction false} ShownRowsAt(rows: seq<seq<Cell>>, k: nat)
    requires k < |rows|
    ensures ShownRows(rows)[k] == ShownRow(rows[k])
  {
    if k > 0 { ShownRowsAt(rows[1..], k - 1); }
  }

  lemma {:induction false} ShownRowAt(cells: seq<Cell>, i: nat)
    requires i < |cells|
    ensures ShownRow(cells)[i] == Shown(cells[i])
  {
    if i > 0 { ShownRowAt(cells[1..], i - 1); }
  }
}
