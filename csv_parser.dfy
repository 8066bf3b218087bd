/**
 * The hand-written CSV reader of the statement import form: a character loop
 * with a quoting flag, a look-ahead for doubled quotes, trimmed cells, and a
 * final filter that drops rows whose cells are all empty.
 *
 * `Scan` is the specification (one step per character, as a recursion over
 * the remaining text); `ParseCsv` is the loop, proved to compute it.
 */
module CsvParser {
  import opened Text

  type Row = seq<string>
  type Table = seq<Row>

  /** The four variables the loop updates. */
  datatype CsvState = CsvState(rows: Table, row: Row, current: string, inQuotes: bool)

  const Initial := CsvState([], [], "", false)

  predicate IsNewline(c: char) { c == '\n' || c == '\r' }

  /** The line endings a written table may use: LF, CR or CRLF. */
  predicate LineEnding(eol: string) { eol == "\n" || eol == "\r" || eol == "\r\n" }

  /** A line break outside quotes: the pending cell and row are flushed, unless both are empty. */
  function EndRow(st: CsvState): (r: CsvState)
    ensures r.inQuotes == st.inQuotes && r.row == [] && r.current == ""
    ensures |st.current| > 0 || |st.row| > 0 ==> r.rows == st.rows + [st.row + [Trim(st.current)]]
    ensures |st.current| == 0 && |st.row| == 0 ==> r == st
  {
    if |st.current| > 0 || |st.row| > 0 then
      CsvState(st.rows + [st.row + [Trim(st.current)]], [], "", st.inQuotes)
    else st
  }

  /** Every cell already stored in `rows` or `row` is trimmed. */
  predicate CellsTrimmed(st: CsvState) {
    (forall i, k :: 0 <= i < |st.rows| && 0 <= k < |st.rows[i]| ==> IsTrimmed(st.rows[i][k]))
    && (forall k :: 0 <= k < |st.row| ==> IsTrimmed(st.row[k]))
  }

  /**
   * The state after reading `s` from state `st`:
   *  - inside quotes, `""` adds one literal quote and consumes both characters;
   *  - any other `"` only flips the quoting flag;
   *  - outside quotes, `,` ends the cell and CR or LF ends the row;
   *  - every other character, including `,`, CR and LF inside quotes, is cell text.
   */
  function Scan(s: string, st: CsvState): CsvState
    decreases |s|
  {
    if s == [] then st
    else if s[0] == '"' && st.inQuotes && |s| > 1 && s[1] == '"' then
      Scan(s[2..], st.(current := st.current + "\""))
    else if s[0] == '"' then
      Scan(s[1..], st.(inQuotes := !st.inQuotes))
    else if s[0] == ',' && !st.inQuotes then
      Scan(s[1..], st.(row := st.row + [Trim(st.current)], current := ""))
    else if IsNewline(s[0]) && !st.inQuotes then
      Scan(s[1..], EndRow(st))
    else
      Scan(s[1..], st.(current := st.current + [s[0]]))
  }

  /** The flush after the loop: a pending cell or row becomes the last row. */
  function Finish(st: CsvState): Table {
    EndRow(st).rows
  }

  /** Some cell of the row holds text. */
  predicate HasText(row: Row) {
    exists k :: 0 <= k < |row| && |row[k]| > 0
  }

  /** `rows.filter(line => line.some(cell => cell.length > 0))`. */
  function KeepNonBlank(rows: Table): (r: Table)
    ensures forall i :: 0 <= i < |r| ==> HasText(r[i])
    ensures forall i :: 0 <= i < |r| ==> r[i] in rows
    ensures (forall i :: 0 <= i < |rows| ==> HasText(rows[i])) ==> r == rows
  {
    if rows == [] then []
    else (if HasText(rows[0]) then [rows[0]] else []) + KeepNonBlank(rows[1..])
  }

  /** What `parseCsv` returns for `content`. */
  function ParseCsvSpec(content: string): Table {
    KeepNonBlank(Finish(Scan(content, Initial)))
  }

  /** `parseCsv`: the character loop, advancing twice over a doubled quote inside quotes. */
  method ParseCsv(content: string) returns (result: Table)
    ensures result == ParseCsvSpec(content)
  {
    var rows: Table := [];
    var current := "";
    var row: Row := [];
    var inQuotes := false;
    var i := 0;
    while i < |content|
      invariant 0 <= i <= |content|
      invariant Scan(content[i..], CsvState(rows, row, current, inQuotes)) == Scan(content, Initial)
      decreases |content| - i
    {
      var ch := content[i];
      var rest := content[i..];
      assert rest[0] == ch && rest[1..] == content[i + 1..];
      if ch == '"' && inQuotes && i + 1 < |content| && content[i + 1] == '"' {
        assert rest[2..] == content[i + 2..];
        current := current + "\"";
        i := i + 2;
      } else if ch == '"' {
        inQuotes := !inQuotes;
        i := i + 1;
      } else if ch == ',' && !inQuotes {
        row := row + [Trim(current)];
        current := "";
        i := i + 1;
      } else if IsNewline(ch) && !inQuotes {
        if |current| > 0 || |row| > 0 {
          row := row + [Trim(current)];
          rows := rows + [row];
          row := [];
          current := "";
        }
        i := i + 1;
      } else {
        current := current + [ch];
        i := i + 1;
      }
    }
    assert content[i..] == [];
    if |current| > 0 || |row| > 0 {
      row := row + [Trim(current)];
      rows := rows + [row];
    }
    result := KeepNonBlank(rows);
  }

  // ---------------------------------------------------------------------------
  // What every result looks like

  /** A line break keeps every stored cell trimmed: the flushed cell is trimmed first. */
  lemma EndRowKeepsCellsTrimmed(st: CsvState)
    requires CellsTrimmed(st)
    ensures CellsTrimmed(EndRow(st))
  {
    if |st.current| > 0 || |st.row| > 0 {
      var r := EndRow(st);
      var last := st.row + [Trim(st.current)];
      assert r.rows == st.rows + [last];
      forall i, k | 0 <= i < |r.rows| && 0 <= k < |r.rows[i]| ensures IsTrimmed(r.rows[i][k]) {
        if i == |st.rows| {
          assert r.rows[i] == last;
        } else {
          assert r.rows[i] == st.rows[i];
        }
      }
    }
  }

  /** Reading text never stores an untrimmed cell. */
  lemma {:induction false} ScanKeepsCellsTrimmed(s: string, st: CsvState)
    requires CellsTrimmed(st)
    ensures CellsTrimmed(Scan(s, st))
    decreases |s|
  {
    if s == [] {
    } else if s[0] == '"' && st.inQuotes && |s| > 1 && s[1] == '"' {
      ScanKeepsCellsTrimmed(s[2..], st.(current := st.current + "\""));
    } else if s[0] == '"' {
      ScanKeepsCellsTrimmed(s[1..], st.(inQuotes := !st.inQuotes));
    } else if s[0] == ',' && !st.inQuotes {
      var next := st.(row := st.row + [Trim(st.current)], current := "");
      assert CellsTrimmed(next);
      ScanKeepsCellsTrimmed(s[1..], next);
    } else if IsNewline(s[0]) && !st.inQuotes {
      EndRowKeepsCellsTrimmed(st);
      ScanKeepsCellsTrimmed(s[1..], EndRow(st));
    } else {
      ScanKeepsCellsTrimmed(s[1..], st.(current := st.current + [s[0]]));
    }
  }

  /** Every cell of every returned row is trimmed, and no returned row is blank. */
  lemma ParsedRowsAreClean(content: string)
    ensures forall i, k :: 0 <= i < |ParseCsvSpec(content)| && 0 <= k < |ParseCsvSpec(content)[i]| ==>
      IsTrimmed(ParseCsvSpec(content)[i][k])
    ensures forall i :: 0 <= i < |ParseCsvSpec(content)| ==> HasText(ParseCsvSpec(content)[i])
  {
    var st := Scan(content, Initial);
    ScanKeepsCellsTrimmed(content, Initial);
    EndRowKeepsCellsTrimmed(st);
    var all := Finish(st);
    var r := ParseCsvSpec(content);
    forall i, k | 0 <= i < |r| && 0 <= k < |r[i]| ensures IsTrimmed(r[i][k]) {
      assert r[i] in all;
      var j :| 0 <= j < |all| && all[j] == r[i];
    }
  }

  // ---------------------------------------------------------------------------
  // Writing a table so that it reads back: every cell quoted, quotes doubled

  /** Each `"` written twice. */
  function EscapeQuotes(c: string): (r: string)
    ensures |r| >= |c|
  {
    if c == [] then []
    else (if c[0] == '"' then "\"\"" else [c[0]]) + EscapeQuotes(c[1..])
  }

  function QuoteCell(c: string): string {
    "\"" + EscapeQuotes(c) + "\""
  }

  /** The quoted cells of a row, separated by commas (nothing for a row without cells). */
  function EncodeRow(cells: Row): string {
    if cells == [] then ""
    else QuoteCell(cells[0]) + (if |cells| == 1 then "" else "," + EncodeRow(cells[1..]))
  }

  /** Every row followed by the line ending `eol`. */
  function EncodeTable(t: Table, eol: string): string {
    if t == [] then "" else EncodeRow(t[0]) + eol + EncodeTable(t[1..], eol)
  }

  /** A row a CSV file can carry through `parseCsv`: cells trimmed, and not all empty. */
  predicate Storable(row: Row) {
    row != [] && HasText(row) && forall k :: 0 <= k < |row| ==> IsTrimmed(row[k])
  }

  /**
   * Reading the escaped text of a cell and its closing quote, inside quotes,
   * appends exactly the cell's text: commas, line breaks and doubled quotes
   * stay cell text.
   */
  lemma {:induction false} ScanQuotedBody(c: string, rest: string, st: CsvState)
    requires st.inQuotes
    requires rest == [] || rest[0] != '"'
    ensures Scan(EscapeQuotes(c) + "\"" + rest, st) == Scan(rest, st.(current := st.current + c, inQuotes := false))
  {
    var s := EscapeQuotes(c) + "\"" + rest;
    if c == [] {
      assert s == "\"" + rest;
      assert s[1..] == rest;
      assert st.current + c == st.current;
    } else if c[0] == '"' {
      var tail := EscapeQuotes(c[1..]) + "\"" + rest;
      assert s == "\"\"" + tail;
      assert s[2..] == tail;
      ScanQuotedBody(c[1..], rest, st.(current := st.current + "\""));
      assert st.current + "\"" + c[1..] == st.current + c;
    } else {
      var tail := EscapeQuotes(c[1..]) + "\"" + rest;
      assert s == [c[0]] + tail;
      assert s[1..] == tail;
      ScanQuotedBody(c[1..], rest, st.(current := st.current + [c[0]]));
      assert st.current + [c[0]] + c[1..] == st.current + c;
    }
  }

  /** An opening quote outside quotes only starts quoting. */
  lemma ScanOpenQuote(x: string, st: CsvState)
    requires !st.inQuotes
    ensures Scan("\"" + x, st) == Scan(x, st.(inQuotes := true))
  {
    assert ("\"" + x)[1..] == x;
  }

  /** A comma outside quotes stores the trimmed pending cell in the row. */
  lemma ScanComma(x: string, st: CsvState)
    requires !st.inQuotes
    ensures Scan("," + x, st) == Scan(x, st.(row := st.row + [Trim(st.current)], current := ""))
  {
    assert ("," + x)[1..] == x;
  }

  /** A CR or LF outside quotes ends the row. */
  lemma ScanNewline(c: char, x: string, st: CsvState)
    requires IsNewline(c) && !st.inQuotes
    ensures Scan([c] + x, st) == Scan(x, EndRow(st))
  {
    assert ([c] + x)[1..] == x;
  }

  /** Reading one quoted cell and what follows it, outside quotes, leaves the cell pending. */
  lemma ScanQuotedCell(c: string, x: string, st: CsvState)
    requires !st.inQuotes && st.current == ""
    requires x == [] || x[0] != '"'
    ensures Scan(QuoteCell(c) + x, st) == Scan(x, st.(current := c))
  {
    var body := EscapeQuotes(c) + "\"" + x;
    assert QuoteCell(c) + x == "\"" + body;
    ScanOpenQuote(body, st);
    ScanQuotedBody(c, x, st.(inQuotes := true));
    assert "" + c == c;
  }

  /** Reading an encoded row leaves all but its last cell in `row` and the last one pending. */
  lemma {:induction false} ScanRow(cells: Row, rest: string, st: CsvState)
    requires cells != [] && forall k :: 0 <= k < |cells| ==> IsTrimmed(cells[k])
    requires !st.inQuotes && st.current == ""
    requires rest == [] || rest[0] != '"'
    ensures Scan(EncodeRow(cells) + rest, st)
         == Scan(rest, st.(row := st.row + cells[..|cells| - 1], current := cells[|cells| - 1]))
  {
    if |cells| == 1 {
      assert EncodeRow(cells) == QuoteCell(cells[0]);
      ScanQuotedCell(cells[0], rest, st);
      assert cells[..0] == [];
      assert st.row + [] == st.row;
    } else {
      var t := EncodeRow(cells[1..]) + rest;
      assert EncodeRow(cells) == QuoteCell(cells[0]) + "," + EncodeRow(cells[1..]);
      Regroup(QuoteCell(cells[0]), ",", EncodeRow(cells[1..]), rest);
      ScanCellThenComma(cells[0], t, st);
      var st2 := st.(row := st.row + [cells[0]], current := "");
      var tailCells := cells[1..];
      ScanRow(tailCells, rest, st2);
      RowSplit(st.row, cells);
    }
  }

  /** Storing the first cell, then all but the last of the others, stores all but the last. */
  lemma RowSplit(row: Row, cells: Row)
    requires |cells| >= 2
    ensures row + [cells[0]] + cells[1..][..|cells| - 2] == row + cells[..|cells| - 1]
    ensures cells[1..][|cells| - 2] == cells[|cells| - 1]
  {
  }

  /** A quoted trimmed cell followed by a comma, outside quotes, is stored in the row. */
  lemma ScanCellThenComma(c: string, t: string, st: CsvState)
    requires IsTrimmed(c)
    requires !st.inQuotes && st.current == ""
    ensures Scan(QuoteCell(c) + ("," + t), st) == Scan(t, st.(row := st.row + [c], current := ""))
  {
    ScanQuotedCell(c, "," + t, st);
    var st1 := st.(current := c);
    ScanComma(t, st1);
    TrimmedIsFixed(c);
    assert st1.(row := st1.row + [Trim(st1.current)], current := "") == st.(row := st.row + [c], current := "");
  }

  /** The line ending after a storable row stores it. */
  lemma ScanLineEnd(cells: Row, eol: string, rest: string, st: CsvState)
    requires Storable(cells)
    requires LineEnding(eol)
    requires !st.inQuotes && st.row == [] && st.current == ""
    ensures Scan(eol + rest, st.(row := cells[..|cells| - 1], current := cells[|cells| - 1]))
         == Scan(rest, st.(rows := st.rows + [cells]))
  {
    var st1 := st.(row := cells[..|cells| - 1], current := cells[|cells| - 1]);
    var st2 := st.(rows := st.rows + [cells]);
    StoredRow(cells, st);
    ScanLineBreak(eol, rest, st1, st2);
  }

  /** A line ending whose first break flushes `pending` into `stored`, and whose second changes nothing. */
  lemma ScanLineBreak(eol: string, rest: string, pending: CsvState, stored: CsvState)
    requires LineEnding(eol)
    requires !pending.inQuotes && EndRow(pending) == stored && EndRow(stored) == stored
    ensures Scan(eol + rest, pending) == Scan(rest, stored)
  {
    if eol == "\n" {
      assert eol + rest == ['\n'] + rest;
      ScanNewline('\n', rest, pending);
    } else if eol == "\r" {
      assert eol + rest == ['\r'] + rest;
      ScanNewline('\r', rest, pending);
    } else {
      assert eol + rest == ['\r'] + (['\n'] + rest);
      ScanNewline('\r', ['\n'] + rest, pending);
      ScanNewline('\n', rest, stored);
    }
  }

  /** Ending the line of a storable row, pending in the state, appends it to `rows`. */
  lemma StoredRow(cells: Row, st: CsvState)
    requires Storable(cells)
    requires !st.inQuotes && st.row == [] && st.current == ""
    ensures EndRow(st.(row := cells[..|cells| - 1], current := cells[|cells| - 1])) == st.(rows := st.rows + [cells])
    ensures EndRow(st.(rows := st.rows + [cells])) == st.(rows := st.rows + [cells])
  {
    var n := |cells|;
    var last := cells[n - 1];
    TrimmedIsFixed(last);
    assert |cells[..n - 1]| > 0 || |last| > 0 by {
      var k :| 0 <= k < n && |cells[k]| > 0;
      if k < n - 1 {
        assert |cells[..n - 1]| > 0;
      }
    }
    assert cells[..n - 1] + [last] == cells;
  }

  /** Reading an encoded row and its line ending stores the row. */
  lemma ScanLine(cells: Row, eol: string, tail: string, st: CsvState)
    requires Storable(cells)
    requires LineEnding(eol)
    requires !st.inQuotes && st.row == [] && st.current == ""
    ensures Scan(EncodeRow(cells) + (eol + tail), st) == Scan(tail, st.(rows := st.rows + [cells]))
  {
    ScanRow(cells, eol + tail, st);
    assert st.row + cells[..|cells| - 1] == cells[..|cells| - 1];
    ScanLineEnd(cells, eol, tail, st);
  }

  /** Reading an encoded table stores its rows in order. */
  lemma {:induction false} ScanTable(t: Table, eol: string, rest: string, st: CsvState)
    requires forall i :: 0 <= i < |t| ==> Storable(t[i])
    requires LineEnding(eol)
    requires !st.inQuotes && st.row == [] && st.current == ""
    ensures Scan(EncodeTable(t, eol) + rest, st) == Scan(rest, st.(rows := st.rows + t))
  {
    if t == [] {
      assert EncodeTable(t, eol) + rest == rest;
      assert st.rows + t == st.rows;
    } else {
      var tail := EncodeTable(t[1..], eol) + rest;
      EncodeTableCons(t, eol, rest);
      ScanLine(t[0], eol, tail, st);
      var st2 := st.(rows := st.rows + [t[0]]);
      ScanTable(t[1..], eol, rest, st2);
      RowsAppend(st.rows, t);
    }
  }

  /** The encoding of a table is its first row's line followed by the encoding of the others. */
  lemma EncodeTableCons(t: Table, eol: string, rest: string)
    requires t != []
    ensures EncodeTable(t, eol) + rest == EncodeRow(t[0]) + (eol + (EncodeTable(t[1..], eol) + rest))
  {
    var row := EncodeRow(t[0]);
    var others := EncodeTable(t[1..], eol);
    assert EncodeTable(t, eol) == row + eol + others;
    Regroup(row, eol, others, rest);
  }

  lemma Regroup(a: string, b: string, c: string, d: string)
    ensures a + b + c + d == a + (b + (c + d))
  {
  }

  /** Storing the first row and then the others stores them all. */
  lemma RowsAppend(rows: Table, t: Table)
    requires t != []
    ensures rows + [t[0]] + t[1..] == rows + t
  {
  }

  /**
   * Round trip: a table whose cells are trimmed and whose rows are not blank is
   * read back exactly from its quoted encoding, with LF, CR or CRLF line endings
   * (a CRLF pair does not make an extra row).
   */
  lemma ParseEncodedTable(t: Table, eol: string)
    requires forall i :: 0 <= i < |t| ==> Storable(t[i])
    requires LineEnding(eol)
    ensures ParseCsvSpec(EncodeTable(t, eol)) == t
  {
    ScanTable(t, eol, "", Initial);
    assert EncodeTable(t, eol) + "" == EncodeTable(t, eol);
    assert Scan("", Initial.(rows := t)) == Initial.(rows := t);
  }

  /** The last row is read even without a line break after it. */
  lemma ParseEncodedTableWithoutFinalBreak(t: Table, eol: string, last: Row)
    requires forall i :: 0 <= i < |t| ==> Storable(t[i])
    requires Storable(last)
    requires LineEnding(eol)
    ensures ParseCsvSpec(EncodeTable(t, eol) + EncodeRow(last)) == t + [last]
  {
    var text := EncodeTable(t, eol) + EncodeRow(last);
    ScanTable(t, eol, EncodeRow(last), Initial);
    assert Initial.rows + t == t;
    FinishLastRow(t, last);
    assert Finish(Scan(text, Initial)) == t + [last];
    StorableRowsKept(t + [last]);
  }

  lemma StorableRowsKept(t: Table)
    requires forall i :: 0 <= i < |t| ==> Storable(t[i])
    ensures KeepNonBlank(t) == t
  {
    forall i | 0 <= i < |t| ensures HasText(t[i]) {
      assert Storable(t[i]);
    }
  }

  /** A final row without line break is flushed after the loop. */
  lemma FinishLastRow(t: Table, last: Row)
    requires Storable(last)
    ensures Finish(Scan(EncodeRow(last), Initial.(rows := t))) == t + [last]
  {
    var st := Initial.(rows := t);
    ScanRow(last, "", st);
    assert EncodeRow(last) + "" == EncodeRow(last);
    assert [] + last[..|last| - 1] == last[..|last| - 1];
    StoredRow(last, st);
  }
}
