/** src/utils.js: the quote-aware CSV codec `csvStringify`/`csvParse`, and
    `uniqueTags`. Unlike the codec of src/data_helpers.js, `csvParse` reads
    line feeds inside quotes as data and works on arrays of cells. */
module Utils {
  import opened Text
  import opened JsValue
  import opened Sorting
  import DataHelpers
  import Model
  import opened Seqs

  // ---- csvParse ----

  /** The `while` loop of `csvParse` over the rest of the text, from the state
      (`inQuotes`, `value`, `current`, `rows`), followed by the final push of
      the last row. Inside quotes `""` is a literal quote, a lone quote closes
      quoting and every other character is data; outside quotes a quote opens
      quoting, a comma ends the cell, a line feed ends the row, a carriage
      return is dropped and every other character is data. */
  function Scan(rest: string, inQuotes: bool, value: string, current: seq<string>, rows: seq<seq<string>>): (r: seq<seq<string>>)
    ensures |r| > |rows| && r[..|rows|] == rows
    decreases |rest|
  {
    if rest == [] then rows + [current + [value]]
    else if inQuotes then
      if rest[0] == '"' then
        if |rest| > 1 && rest[1] == '"' then Scan(rest[2..], true, value + "\"", current, rows)
        else Scan(rest[1..], false, value, current, rows)
      else Scan(rest[1..], true, value + [rest[0]], current, rows)
    else if rest[0] == '"' then Scan(rest[1..], true, value, current, rows)
    else if rest[0] == ',' then Scan(rest[1..], false, "", current + [value], rows)
    else if rest[0] == '\n' then Scan(rest[1..], false, "", [], rows + [current + [value]])
    else if rest[0] == '\r' then Scan(rest[1..], false, value, current, rows)
    else Scan(rest[1..], false, value + [rest[0]], current, rows)
  }

  /** `rows.filter((row) => row.length > 1 || row[0] !== "")`: drops the rows
      that are a single empty cell. */
  function DropEmptyRows(rows: seq<seq<string>>): (r: seq<seq<string>>)
    ensures forall k :: 0 <= k < |r| ==> r[k] != [""]
    ensures |r| <= |rows|
  {
    if rows == [] then []
    else (if NotEmptyRow(rows[0]) then [rows[0]] else []) + DropEmptyRows(rows[1..])
  }

  /** `row.length > 1 || row[0] !== ""`: an empty row passes, since reading
      its first cell gives `undefined`. */
  predicate NotEmptyRow(row: seq<string>)
  {
    |row| != 1 || row[0] != ""
  }

  /** `DropEmptyRows` is `Array.prototype.filter` with that test: every row
      other than `[""]` is kept, in order and as often as it occurs, and
      nothing else. */
  lemma {:induction false} DropEmptyRowsIsFilter(rows: seq<seq<string>>)
    ensures DropEmptyRows(rows) == Filter(rows, NotEmptyRow)
    ensures forall row :: multiset(DropEmptyRows(rows))[row] == if row == [""] then 0 else multiset(rows)[row]
  {
    if rows != [] {
      DropEmptyRowsIsFilter(rows[1..]);
    }
    forall row ensures multiset(DropEmptyRows(rows))[row] == if row == [""] then 0 else multiset(rows)[row] {
      FilterCount(rows, NotEmptyRow, row);
      NotEmptyRowIff(row);
    }
  }

  lemma {:induction false} NotEmptyRowIff(row: seq<string>)
    ensures NotEmptyRow(row) <==> row != [""]
  {
    if |row| == 1 {
      assert row == [row[0]];
    }
  }

  /** The rows `csvParse(text)` returns. */
  function ParseRows(text: string): seq<seq<string>>
  {
    DropEmptyRows(Scan(text, false, "", [], []))
  }

  /** `csvParse` */
  method CsvParse(text: string) returns (result: seq<seq<string>>)
    ensures result == ParseRows(text)
    ensures forall k :: 0 <= k < |result| ==> result[k] != [""]
  {
    var rows: seq<seq<string>> := [];
    var current: seq<string> := [];
    var value := "";
    var inQuotes := false;
    var i := 0;
    while i < |text|
      invariant 0 <= i <= |text|
      invariant Scan(text[i..], inQuotes, value, current, rows) == Scan(text, false, "", [], [])
    {
      var c := text[i];
      assert text[i..][0] == c && text[i..][1..] == text[i + 1..];
      if inQuotes {
        if c == '"' {
          if i + 1 < |text| && text[i + 1] == '"' {
            assert text[i..][2..] == text[i + 2..];
            value := value + "\"";
            i := i + 2;
          } else {
            inQuotes := false;
            i := i + 1;
          }
        } else {
          value := value + [c];
          i := i + 1;
        }
      } else if c == '"' {
        inQuotes := true;
        i := i + 1;
      } else if c == ',' {
        current := current + [value];
        value := "";
        i := i + 1;
      } else if c == '\n' {
        rows := rows + [current + [value]];
        current := [];
        value := "";
        i := i + 1;
      } else if c == '\r' {
        i := i + 1;
      } else {
        value := value + [c];
        i := i + 1;
      }
    }
    rows := rows + [current + [value]];
    result := DropEmptyRows(rows);
  }

  // ---- csvStringify ----

  /** The text of every cell; `escape` in `csvStringify` reads a cell as
      `String(value ?? "")`, which is `DataHelpers.CellText`. */
  function RowTexts(row: seq<Value>): (r: seq<string>)
    ensures |r| == |row| && forall j :: 0 <= j < |row| ==> r[j] == DataHelpers.CellText(row[j])
  {
    seq(|row|, j requires 0 <= j < |row| => DataHelpers.CellText(row[j]))
  }

  function TableTexts(rows: seq<seq<Value>>): (r: seq<seq<string>>)
    ensures |r| == |rows| && forall k :: 0 <= k < |rows| ==> r[k] == RowTexts(rows[k])
  {
    seq(|rows|, k requires 0 <= k < |rows| => RowTexts(rows[k]))
  }

  /** One line of `csvStringify`: the escaped cells joined by commas. The
      `escape` helper of `csvStringify` matches `escapeCsv` of
      src/data_helpers.js character for character, so it is shared. */
  function RowLine(texts: seq<string>): string
  {
    Join(DataHelpers.EscapeAll(texts), ",")
  }

  /** `csvStringify` */
  function CsvStringify(rows: seq<seq<Value>>): (r: string)
    ensures rows == [] ==> r == ""
    ensures |rows| == 1 ==> r == RowLine(RowTexts(rows[0]))
  {
    Join(TableLines(TableTexts(rows)), "\n")
  }

  function TableLines(texts: seq<seq<string>>): (r: seq<string>)
    ensures |r| == |texts| && forall k :: 0 <= k < |texts| ==> r[k] == RowLine(texts[k])
  {
    seq(|texts|, k requires 0 <= k < |texts| => RowLine(texts[k]))
  }

  // ---- the round trip ----

  /** A cell text `csvStringify` writes without quotes holds no carriage
      return, which `csvParse` would drop. */
  predicate SafeCell(t: string)
  {
    '\r' in t ==> DataHelpers.NeedsQuotes(t)
  }

  /** The rows `csvParse(csvStringify(rows))` gives back the texts of: each
      row has a cell, no row is the single empty cell that `csvParse` drops,
      and no unquoted cell holds a carriage return. */
  predicate RoundTripRows(texts: seq<seq<string>>)
  {
    forall k :: 0 <= k < |texts| ==>
      |texts[k]| >= 1 && texts[k] != [""] && forall j :: 0 <= j < |texts[k]| ==> SafeCell(texts[k][j])
  }

  lemma {:induction false} ScanPlain(f: string, rest: string, value: string, current: seq<string>, rows: seq<seq<string>>)
    requires !DataHelpers.NeedsQuotes(f) && '\r' !in f
    ensures Scan(f + rest, false, value, current, rows) == Scan(rest, false, value + f, current, rows)
    decreases |f|
  {
    if f == [] {
      assert f + rest == rest && value + f == value;
    } else {
      assert (f + rest)[0] == f[0] && (f + rest)[1..] == f[1..] + rest;
      assert f[0] in f;
      assert !DataHelpers.NeedsQuotes(f[1..]) && '\r' !in f[1..] by {
        assert forall k :: 0 <= k < |f[1..]| ==> f[1..][k] == f[k + 1];
      }
      ScanPlain(f[1..], rest, value + [f[0]], current, rows);
      assert value + [f[0]] + f[1..] == value + f;
    }
  }

  lemma {:induction false} ScanQuotedBody(f: string, rest: string, value: string, current: seq<string>, rows: seq<seq<string>>)
    requires rest == [] || rest[0] != '"'
    ensures Scan(DataHelpers.DoubleQuotes(f) + "\"" + rest, true, value, current, rows)
         == Scan(rest, false, value + f, current, rows)
    decreases |f|
  {
    if f == [] {
      assert DataHelpers.DoubleQuotes(f) + "\"" + rest == "\"" + rest;
      ScanQuoteClose(rest, value, current, rows);
      assert value + f == value;
    } else {
      var v := value + [f[0]];
      assert v + f[1..] == value + f;
      calc {
        Scan(DataHelpers.DoubleQuotes(f) + "\"" + rest, true, value, current, rows);
        { ScanQuotedChar(f, rest, value, current, rows); }
        Scan(DataHelpers.DoubleQuotes(f[1..]) + "\"" + rest, true, v, current, rows);
        { ScanQuotedBody(f[1..], rest, v, current, rows); }
        Scan(rest, false, v + f[1..], current, rows);
      }
    }
  }

  /** The closing quote, not followed by another quote, ends quoting. */
  lemma {:induction false} ScanQuoteClose(rest: string, value: string, current: seq<string>, rows: seq<seq<string>>)
    requires rest == [] || rest[0] != '"'
    ensures Scan("\"" + rest, true, value, current, rows) == Scan(rest, false, value, current, rows)
  {
    assert ("\"" + rest)[1..] == rest;
  }

  /** One character of the quoted body: a doubled quote reads as one quote. */
  lemma {:induction false} ScanQuotedChar(f: string, rest: string, value: string, current: seq<string>, rows: seq<seq<string>>)
    requires f != []
    ensures Scan(DataHelpers.DoubleQuotes(f) + "\"" + rest, true, value, current, rows)
         == Scan(DataHelpers.DoubleQuotes(f[1..]) + "\"" + rest, true, value + [f[0]], current, rows)
  {
    var tail := DataHelpers.DoubleQuotes(f[1..]) + "\"" + rest;
    if f[0] == '"' {
      DataHelpers.QuotedPieces(f, rest, "\"\"");
      assert (DataHelpers.DoubleQuotes(f) + "\"" + rest)[2..] == tail;
      assert value + "\"" == value + [f[0]];
    } else {
      DataHelpers.QuotedPieces(f, rest, [f[0]]);
      assert (DataHelpers.DoubleQuotes(f) + "\"" + rest)[1..] == tail;
    }
  }

  /** An escaped cell followed by a comma, a line feed or the end of the text
      scans back to its text. */
  lemma {:induction false} ScanEscaped(f: string, rest: string, current: seq<string>, rows: seq<seq<string>>)
    requires SafeCell(f)
    requires rest == [] || rest[0] == ',' || rest[0] == '\n'
    ensures Scan(DataHelpers.EscapeString(f) + rest, false, "", current, rows) == Scan(rest, false, f, current, rows)
  {
    if DataHelpers.NeedsQuotes(f) {
      var t := "\"" + DataHelpers.DoubleQuotes(f) + "\"" + rest;
      assert t[1..] == DataHelpers.DoubleQuotes(f) + "\"" + rest;
      ScanQuotedBody(f, rest, "", current, rows);
      assert "" + f == f;
    } else {
      ScanPlain(f, rest, "", current, rows);
      assert "" + f == f;
    }
  }

  /** A row line followed by a line feed or the end of the text leaves its
      last cell in `value` and the others in `current`. */
  lemma {:induction false} ScanRow(texts: seq<string>, rest: string, current: seq<string>, rows: seq<seq<string>>)
    requires |texts| >= 1 && forall j :: 0 <= j < |texts| ==> SafeCell(texts[j])
    requires rest == [] || rest[0] == '\n'
    ensures Scan(RowLine(texts) + rest, false, "", current, rows)
         == Scan(rest, false, texts[|texts| - 1], current + texts[..|texts| - 1], rows)
    decreases |texts|
  {
    if |texts| == 1 {
      ScanEscaped(texts[0], rest, current, rows);
      assert current + texts[..0] == current;
    } else {
      var tail := texts[1..];
      TailFacts(texts, current);
      ScanRow(tail, rest, current + [texts[0]], rows);
      ScanFirstCell(texts, rest, current, rows);
    }
  }

  lemma {:induction false} TailFacts(texts: seq<string>, current: seq<string>)
    requires |texts| >= 2 && forall j :: 0 <= j < |texts| ==> SafeCell(texts[j])
    ensures forall j :: 0 <= j < |texts[1..]| ==> SafeCell(texts[1..][j])
    ensures texts[1..][|texts[1..]| - 1] == texts[|texts| - 1]
    ensures current + [texts[0]] + texts[1..][..|texts[1..]| - 1] == current + texts[..|texts| - 1]
  {
    assert forall j :: 0 <= j < |texts[1..]| ==> texts[1..][j] == texts[j + 1];
    assert texts[..|texts| - 1] == [texts[0]] + texts[1..][..|texts[1..]| - 1];
  }

  /** The first cell of a row line of two or more cells and its comma. */
  lemma {:induction false} ScanFirstCell(texts: seq<string>, rest: string, current: seq<string>, rows: seq<seq<string>>)
    requires |texts| >= 2 && SafeCell(texts[0])
    ensures Scan(RowLine(texts) + rest, false, "", current, rows)
         == Scan(RowLine(texts[1..]) + rest, false, "", current + [texts[0]], rows)
  {
    var tail := RowLine(texts[1..]);
    var after := "," + (tail + rest);
    calc {
      Scan(RowLine(texts) + rest, false, "", current, rows);
      { RowLineCons(texts, rest); }
      Scan(DataHelpers.EscapeString(texts[0]) + after, false, "", current, rows);
      { ScanEscaped(texts[0], after, current, rows); }
      Scan(after, false, texts[0], current, rows);
      { ScanComma(tail + rest, texts[0], current, rows); }
      Scan(tail + rest, false, "", current + [texts[0]], rows);
    }
  }

  lemma {:induction false} RowLineCons(texts: seq<string>, rest: string)
    requires |texts| >= 2
    ensures RowLine(texts) + rest == DataHelpers.EscapeString(texts[0]) + ("," + (RowLine(texts[1..]) + rest))
  {
    var e := DataHelpers.EscapeAll(texts);
    assert DataHelpers.EscapeAll(texts[1..]) == e[1..];
    assert RowLine(texts) == DataHelpers.EscapeString(texts[0]) + "," + RowLine(texts[1..]);
  }

  lemma {:induction false} ScanComma(rest: string, value: string, current: seq<string>, rows: seq<seq<string>>)
    ensures Scan("," + rest, false, value, current, rows) == Scan(rest, false, "", current + [value], rows)
  {
    assert ("," + rest)[1..] == rest;
  }

  lemma {:induction false} ScanTable(texts: seq<seq<string>>, rows: seq<seq<string>>)
    requires |texts| >= 1 && RoundTripRows(texts)
    ensures Scan(Join(TableLines(texts), "\n"), false, "", [], rows) == rows + texts
    decreases |texts|
  {
    if |texts| == 1 {
      ScanOnlyRow(texts, rows);
    } else {
      ScanFirstRow(texts, rows);
      RoundTripTail(texts);
      ScanTable(texts[1..], rows + [texts[0]]);
      ConsAppend(rows, texts);
    }
  }

  lemma {:induction false} ScanOnlyRow(texts: seq<seq<string>>, rows: seq<seq<string>>)
    requires |texts| == 1 && RoundTripRows(texts)
    ensures Scan(Join(TableLines(texts), "\n"), false, "", [], rows) == rows + texts
  {
    assert Join(TableLines(texts), "\n") == RowLine(texts[0]) + "";
    ScanLastRow(texts[0], rows);
    assert texts == [texts[0]];
  }


  lemma {:induction false} RoundTripTail(texts: seq<seq<string>>)
    requires |texts| >= 1 && RoundTripRows(texts)
    ensures RoundTripRows(texts[1..])
  {
    assert forall k :: 0 <= k < |texts[1..]| ==> texts[1..][k] == texts[k + 1];
  }

  /** The first row line of two or more and its line feed. */
  lemma {:induction false} ScanFirstRow(texts: seq<seq<string>>, rows: seq<seq<string>>)
    requires |texts| >= 2 && RoundTripRows(texts)
    ensures Scan(Join(TableLines(texts), "\n"), false, "", [], rows)
         == Scan(Join(TableLines(texts[1..]), "\n"), false, "", [], rows + [texts[0]])
  {
    TableLinesCons(texts);
    ScanRowBreak(texts[0], Join(TableLines(texts[1..]), "\n"), rows);
  }

  lemma {:induction false} TableLinesCons(texts: seq<seq<string>>)
    requires |texts| >= 2
    ensures Join(TableLines(texts), "\n") == RowLine(texts[0]) + ("\n" + Join(TableLines(texts[1..]), "\n"))
  {
    assert TableLines(texts)[1..] == TableLines(texts[1..]);
  }

  /** The last row line of the text ends the scan with that row. */
  lemma {:induction false} ScanLastRow(row: seq<string>, rows: seq<seq<string>>)
    requires |row| >= 1 && forall j :: 0 <= j < |row| ==> SafeCell(row[j])
    ensures Scan(RowLine(row) + "", false, "", [], rows) == rows + [row]
  {
    ScanRow(row, "", [], rows);
    assert [] + row[..|row| - 1] + [row[|row| - 1]] == row;
  }

  /** A row line and its line feed push the row and start the next one. */
  lemma {:induction false} ScanRowBreak(row: seq<string>, tail: string, rows: seq<seq<string>>)
    requires |row| >= 1 && forall j :: 0 <= j < |row| ==> SafeCell(row[j])
    ensures Scan(RowLine(row) + ("\n" + tail), false, "", [], rows) == Scan(tail, false, "", [], rows + [row])
  {
    ScanRow(row, "\n" + tail, [], rows);
    assert ("\n" + tail)[1..] == tail;
    assert [] + row[..|row| - 1] + [row[|row| - 1]] == row;
  }

  lemma {:induction false} DropEmptyRowsKeeps(rows: seq<seq<string>>)
    requires RoundTripRows(rows)
    ensures DropEmptyRows(rows) == rows
  {
    if rows != [] {
      assert RoundTripRows(rows[1..]) by {
        assert forall k :: 0 <= k < |rows[1..]| ==> rows[1..][k] == rows[k + 1];
      }
      DropEmptyRowsKeeps(rows[1..]);
    }
  }

  /** Round trip: `csvParse(csvStringify(rows))` gives back the text of every
      cell, quoted commas, quotes and line feeds included. */
  lemma {:induction false} CsvRoundTrip(rows: seq<seq<Value>>)
    requires RoundTripRows(TableTexts(rows))
    ensures ParseRows(CsvStringify(rows)) == TableTexts(rows)
  {
    var texts := TableTexts(rows);
    if |texts| == 0 {
      assert CsvStringify(rows) == "";
    } else {
      ScanTable(texts, []);
      assert [] + texts == texts;
    }
    DropEmptyRowsKeeps(texts);
  }

  // ---- quote-free text ----

  /** `s` without its carriage returns. */
  function RemoveCR(s: string): (r: string)
    ensures '\r' !in r
  {
    if s == [] then [] else (if s[0] == '\r' then [] else [s[0]]) + RemoveCR(s[1..])
  }

  /** The cells of a text without quotes, read as the plain format: lines at
      line feeds, cells at commas, carriage returns ignored. */
  function PlainCells(text: string): (r: seq<seq<string>>)
    ensures |r| >= 1
  {
    var lines := Split(RemoveCR(text), '\n');
    seq(|lines|, k requires 0 <= k < |lines| => Split(lines[k], ','))
  }

  /** The scan of a quote-free text from any state outside quotes: the
      first line of cells continues the current row and cell. */
  function Continue(value: string, current: seq<string>, cells: seq<seq<string>>): seq<seq<string>>
    requires |cells| >= 1 && |cells[0]| >= 1
  {
    [current + [value + cells[0][0]] + cells[0][1..]] + cells[1..]
  }

  lemma {:induction false} PlainCellsShape(text: string)
    ensures forall k :: 0 <= k < |PlainCells(text)| ==> |PlainCells(text)[k]| >= 1
  {
  }

  lemma {:induction false} PlainCellsComma(t: string)
    ensures PlainCells("," + t) == [[""] + PlainCells(t)[0]] + PlainCells(t)[1..]
  {
    assert ("," + t)[0] == ',' && ("," + t)[1..] == t;
    var lines := Split(RemoveCR(t), '\n');
    assert RemoveCR("," + t) == "," + RemoveCR(t);
    var first := "," + lines[0];
    assert first[0] == ',' && first[1..] == lines[0];
    assert Split(first, ',') == [""] + Split(lines[0], ',');
  }

  lemma {:induction false} PlainCellsNewline(t: string)
    ensures PlainCells("\n" + t) == [[""]] + PlainCells(t)
  {
    assert ("\n" + t)[0] == '\n' && ("\n" + t)[1..] == t;
    assert RemoveCR("\n" + t) == "\n" + RemoveCR(t);
    var s := "\n" + RemoveCR(t);
    assert s[0] == '\n' && s[1..] == RemoveCR(t);
  }

  lemma {:induction false} PlainCellsCR(t: string)
    ensures PlainCells("\r" + t) == PlainCells(t)
  {
    assert ("\r" + t)[0] == '\r' && ("\r" + t)[1..] == t;
    assert RemoveCR("\r" + t) == RemoveCR(t);
  }

  lemma {:induction false} PlainCellsChar(c: char, t: string)
    requires c != ',' && c != '\n' && c != '\r'
    ensures PlainCells([c] + t)
         == [[[c] + PlainCells(t)[0][0]] + PlainCells(t)[0][1..]] + PlainCells(t)[1..]
  {
    assert ([c] + t)[0] == c && ([c] + t)[1..] == t;
    assert RemoveCR([c] + t) == [c] + RemoveCR(t);
    var lines := Split(RemoveCR(t), '\n');
    var s := [c] + RemoveCR(t);
    assert s[0] == c && s[1..] == RemoveCR(t);
    var first := [c] + lines[0];
    assert first[0] == c && first[1..] == lines[0];
  }

  lemma {:induction false} StepComma(t: string, value: string, current: seq<string>, rows: seq<seq<string>>)
    requires |PlainCells(t)[0]| >= 1
    requires Scan(t, false, "", current + [value], rows) == rows + Continue("", current + [value], PlainCells(t))
    ensures |PlainCells("," + t)[0]| >= 1
    ensures Scan("," + t, false, value, current, rows) == rows + Continue(value, current, PlainCells("," + t))
  {
    var cells := PlainCells(t);
    assert ("," + t)[0] == ',' && ("," + t)[1..] == t;
    PlainCellsComma(t);
    var all := [[""] + cells[0]] + cells[1..];
    assert all[0][0] == "" && all[0][1..] == cells[0] && all[1..] == cells[1..];
    assert "" + cells[0][0] == cells[0][0];
    assert value + "" == value;
    assert cells[0] == [cells[0][0]] + cells[0][1..];
    assert current + [value] + [cells[0][0]] + cells[0][1..] == current + [value + all[0][0]] + all[0][1..];
  }

  lemma {:induction false} AppendAssociative<T>(a: seq<T>, b: seq<T>, c: seq<T>)
    ensures a + b + c == a + (b + c)
  {
  }

  lemma {:induction false} ContinueFresh(cells: seq<seq<string>>)
    requires |cells| >= 1 && |cells[0]| >= 1
    ensures Continue("", [], cells) == cells
  {
    assert "" + cells[0][0] == cells[0][0];
    assert [] + [cells[0][0]] + cells[0][1..] == cells[0];
  }

  lemma {:induction false} ContinueNewRow(value: string, current: seq<string>, cells: seq<seq<string>>)
    ensures Continue(value, current, [[""]] + cells) == [current + [value]] + cells
  {
    var all := [[""]] + cells;
    assert all[0] == [""] && all[0][1..] == [] && all[1..] == cells;
    assert value + all[0][0] == value;
    assert current + [value] + [] == current + [value];
  }

  lemma {:induction false} StepNewline(t: string, value: string, current: seq<string>, rows: seq<seq<string>>)
    requires |PlainCells(t)[0]| >= 1
    requires Scan(t, false, "", [], rows + [current + [value]]) == rows + [current + [value]] + Continue("", [], PlainCells(t))
    ensures |PlainCells("\n" + t)[0]| >= 1
    ensures Scan("\n" + t, false, value, current, rows) == rows + Continue(value, current, PlainCells("\n" + t))
  {
    var cells := PlainCells(t);
    var first := [current + [value]];
    assert Scan("\n" + t, false, value, current, rows) == Scan(t, false, "", [], rows + first) by {
      assert ("\n" + t)[0] == '\n' && ("\n" + t)[1..] == t;
    }
    assert PlainCells("\n" + t) == [[""]] + cells by {
      PlainCellsNewline(t);
    }
    assert Continue("", [], cells) == cells by {
      ContinueFresh(cells);
    }
    assert Continue(value, current, [[""]] + cells) == first + cells by {
      ContinueNewRow(value, current, cells);
    }
    AppendAssociative(rows, first, cells);
  }

  lemma {:induction false} StepCR(t: string, value: string, current: seq<string>, rows: seq<seq<string>>)
    requires |PlainCells(t)[0]| >= 1
    requires Scan(t, false, value, current, rows) == rows + Continue(value, current, PlainCells(t))
    ensures |PlainCells("\r" + t)[0]| >= 1
    ensures Scan("\r" + t, false, value, current, rows) == rows + Continue(value, current, PlainCells("\r" + t))
  {
    assert ("\r" + t)[0] == '\r' && ("\r" + t)[1..] == t;
    PlainCellsCR(t);
  }

  lemma {:induction false} StepChar(c: char, t: string, value: string, current: seq<string>, rows: seq<seq<string>>)
    requires c != ',' && c != '\n' && c != '\r' && c != '"'
    requires |PlainCells(t)[0]| >= 1
    requires Scan(t, false, value + [c], current, rows) == rows + Continue(value + [c], current, PlainCells(t))
    ensures |PlainCells([c] + t)[0]| >= 1
    ensures Scan([c] + t, false, value, current, rows) == rows + Continue(value, current, PlainCells([c] + t))
  {
    var cells := PlainCells(t);
    assert ([c] + t)[0] == c && ([c] + t)[1..] == t;
    PlainCellsChar(c, t);
    var all := [[[c] + cells[0][0]] + cells[0][1..]] + cells[1..];
    assert all[0][0] == [c] + cells[0][0] && all[0][1..] == cells[0][1..] && all[1..] == cells[1..];
    assert value + [c] + cells[0][0] == value + ([c] + cells[0][0]);
  }

  lemma {:induction false} ScanPlainText(rest: string, value: string, current: seq<string>, rows: seq<seq<string>>)
    requires '"' !in rest
    ensures |PlainCells(rest)[0]| >= 1
    ensures Scan(rest, false, value, current, rows) == rows + Continue(value, current, PlainCells(rest))
    decreases |rest|
  {
    PlainCellsShape(rest);
    if rest == [] {
      var all := PlainCells(rest);
      assert all == [[""]];
      assert all[0][0] == "" && all[0][1..] == [] && all[1..] == [];
      assert value + "" == value;
      assert current + [value] + [] == current + [value];
      assert Continue(value, current, all) == [current + [value]];
    } else {
      var c := rest[0];
      var t := rest[1..];
      assert rest == [c] + t;
      assert '"' !in t by { assert forall k :: 0 <= k < |t| ==> t[k] == rest[k + 1]; }
      assert c != '"' by { assert rest[0] in rest; }
      if c == ',' {
        ScanPlainText(t, "", current + [value], rows);
        StepComma(t, value, current, rows);
      } else if c == '\n' {
        ScanPlainText(t, "", [], rows + [current + [value]]);
        StepNewline(t, value, current, rows);
      } else if c == '\r' {
        ScanPlainText(t, value, current, rows);
        StepCR(t, value, current, rows);
      } else {
        ScanPlainText(t, value + [c], current, rows);
        StepChar(c, t, value, current, rows);
      }
    }
  }

  /** A text without quotes parses as the plain format: split into lines at
      line feeds, each line into cells at commas, carriage returns dropped
      wherever they are, and single empty-cell rows removed. */
  lemma {:induction false} QuoteFreeText(text: string)
    requires '"' !in text
    ensures ParseRows(text) == DropEmptyRows(PlainCells(text))
  {
    ScanPlainText(text, "", [], []);
    var cells := PlainCells(text);
    assert "" + cells[0][0] == cells[0][0];
    assert [] + [cells[0][0]] + cells[0][1..] == cells[0];
    assert [] + Continue("", [], cells) == cells;
  }

  lemma {:induction false} RemoveCRIdempotent(s: string)
    ensures RemoveCR(RemoveCR(s)) == RemoveCR(s)
  {
    if s != [] {
      RemoveCRIdempotent(s[1..]);
      var r := RemoveCR(s[1..]);
      if s[0] != '\r' {
        var t := [s[0]] + r;
        assert RemoveCR(s) == t;
        assert t[0] == s[0] && t[1..] == r;
        assert RemoveCR(t) == [s[0]] + RemoveCR(r);
      } else {
        assert RemoveCR(s) == r;
      }
    }
  }

  lemma {:induction false} RemoveCRKeepsQuoteFree(s: string)
    requires '"' !in s
    ensures '"' !in RemoveCR(s)
  {
    if s != [] {
      assert '"' !in s[1..] by { assert forall k :: 0 <= k < |s[1..]| ==> s[1..][k] == s[k + 1]; }
      RemoveCRKeepsQuoteFree(s[1..]);
    }
  }

  /** Outside quotes carriage returns do not matter: a quote-free text parses
      like the same text with its carriage returns removed, so CRLF and LF
      line ends read alike. */
  lemma {:induction false} CarriageReturnsIgnored(text: string)
    requires '"' !in text
    ensures ParseRows(text) == ParseRows(RemoveCR(text))
  {
    QuoteFreeText(text);
    RemoveCRKeepsQuoteFree(text);
    QuoteFreeText(RemoveCR(text));
    RemoveCRIdempotent(text);
  }

  // ---- uniqueTags ----

  /** The tags of one record. */
  function TagsOf(r: Model.Record): seq<string>
  {
    r.tags
  }

  /** `uniqueTags(records)`: the tags are collected into a `Set` record by
      record, and its contents are sorted by the comparator `le`. */
  method UniqueTags(records: seq<Model.Record>, le: (string, string) -> bool) returns (tags: seq<string>)
    ensures tags == Sort(Added(FlatMap(records, TagsOf)), le)
  {
    var tagSet: seq<string> := [];
    var i := 0;
    while i < |records|
      invariant 0 <= i <= |records|
      invariant tagSet == Added(FlatMap(records[..i], TagsOf))
    {
      tagSet := AddEach(tagSet, FlatMap(records[..i], TagsOf), records[i].tags);
      FlatMapSnoc(records, i, TagsOf);
      i := i + 1;
    }
    assert records[..i] == records;
    tags := Sort(tagSet, le);
  }

  /** The result holds every tag of every record exactly once, and nothing
      else, in the comparator's order; no records give no tags. */
  lemma {:induction false} UniqueTagsSpec(records: seq<Model.Record>, le: (string, string) -> bool, t: string)
    requires TotalPreorder(le)
    ensures SortedBy(Sort(Added(FlatMap(records, TagsOf)), le), le)
    ensures multiset(Sort(Added(FlatMap(records, TagsOf)), le))[t]
         == if exists k :: 0 <= k < |records| && t in records[k].tags then 1 else 0
    ensures records == [] ==> Sort(Added(FlatMap(records, TagsOf)), le) == []
  {
    SortSorted(Added(FlatMap(records, TagsOf)), le);
    SortPermutation(Added(FlatMap(records, TagsOf)), le);
    AddedOnce(FlatMap(records, TagsOf), t);
    FlatMapMember(records, TagsOf, t);
  }
}
