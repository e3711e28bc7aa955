/** src/data_helpers.js: the line-splitting CSV codec (`parseCsvLine`,
    `parseCsv`, `escapeCsv`, `toCsv`) and the JSON shape check
    `validateJsonRecords`. src/data_viewer.js:1-55 holds a verbatim copy of
    the four CSV functions, so this module models both. */
module DataHelpers {
  import opened Text
  import opened JsValue
  import Seqs

  // ---- JSON shape check ----

  /** `isPlainObject`: `typeof v === "object"`, not null, not an array. */
  predicate IsPlainObject(v: Value)
  {
    v.Obj?
  }

  /** `validateJsonRecords` */
  predicate ValidateJsonRecords(v: Value)
  {
    v.Arr? && forall k :: 0 <= k < |v.elems| ==> IsPlainObject(v.elems[k])
  }

  /** The three cases of the source's own tests. */
  lemma {:induction false} ValidateJsonRecordsExamples()
    ensures ValidateJsonRecords(Arr([Obj([("id", Num(Int(1)))]), Obj([("name", Str("test"))])]))
    ensures !ValidateJsonRecords(Arr([Obj([("id", Num(Int(1)))]), Null]))
    ensures !ValidateJsonRecords(Obj([("id", Num(Int(1)))]))
  {
    var bad := Arr([Obj([("id", Num(Int(1)))]), Null]);
    assert !IsPlainObject(bad.elems[1]);
  }

  // ---- parseCsvLine ----

  /** The loop of `parseCsvLine` over the rest of the line, from the state
      (`inQuotes`, `current`, `result`). Outside quotes a comma ends the
      field; a quote toggles quoting and is not kept; inside quotes `""` is
      one literal quote; every other character is data. */
  function LineScan(rest: string, inQuotes: bool, current: string, result: seq<string>): seq<string>
    decreases |rest|
  {
    if rest == [] then result + [current]
    else if rest[0] == '"' then
      if inQuotes && |rest| > 1 && rest[1] == '"' then LineScan(rest[2..], inQuotes, current + "\"", result)
      else LineScan(rest[1..], !inQuotes, current, result)
    else if rest[0] == ',' && !inQuotes then LineScan(rest[1..], inQuotes, "", result + [current])
    else LineScan(rest[1..], inQuotes, current + [rest[0]], result)
  }

  /** The fields `parseCsvLine(line)` returns. */
  function LineFields(line: string): seq<string>
  {
    LineScan(line, false, "", [])
  }

  /** `parseCsvLine` */
  method ParseCsvLine(line: string) returns (result: seq<string>)
    ensures result == LineFields(line)
  {
    result := [];
    var current := "";
    var inQuotes := false;
    var i := 0;
    while i < |line|
      invariant 0 <= i <= |line|
      invariant LineScan(line[i..], inQuotes, current, result) == LineFields(line)
    {
      var c := line[i];
      assert line[i..][0] == c && line[i..][1..] == line[i + 1..];
      if c == '"' {
        if inQuotes && i + 1 < |line| && line[i + 1] == '"' {
          assert line[i..][2..] == line[i + 2..];
          current := current + "\"";
          i := i + 1;
        } else {
          inQuotes := !inQuotes;
        }
      } else if c == ',' && !inQuotes {
        result := result + [current];
        current := "";
      } else {
        current := current + [c];
      }
      i := i + 1;
    }
    result := result + [current];
  }

  /** The number of commas the scan meets outside quotes. */
  function CommasOutsideQuotes(rest: string, inQuotes: bool): nat
    decreases |rest|
  {
    if rest == [] then 0
    else if rest[0] == '"' then
      if inQuotes && |rest| > 1 && rest[1] == '"' then CommasOutsideQuotes(rest[2..], inQuotes)
      else CommasOutsideQuotes(rest[1..], !inQuotes)
    else if rest[0] == ',' && !inQuotes then 1 + CommasOutsideQuotes(rest[1..], inQuotes)
    else CommasOutsideQuotes(rest[1..], inQuotes)
  }

  lemma {:induction false} LineScanLength(rest: string, inQuotes: bool, current: string, result: seq<string>)
    ensures |LineScan(rest, inQuotes, current, result)| == |result| + 1 + CommasOutsideQuotes(rest, inQuotes)
    decreases |rest|
  {
    if rest == [] {
    } else if rest[0] == '"' {
      if inQuotes && |rest| > 1 && rest[1] == '"' {
        LineScanLength(rest[2..], inQuotes, current + "\"", result);
      } else {
        LineScanLength(rest[1..], !inQuotes, current, result);
      }
    } else if rest[0] == ',' && !inQuotes {
      LineScanLength(rest[1..], inQuotes, "", result + [current]);
    } else {
      LineScanLength(rest[1..], inQuotes, current + [rest[0]], result);
    }
  }

  /** `parseCsvLine` returns one more field than there are commas outside
      quotes. */
  lemma {:induction false} FieldCount(line: string)
    ensures |LineFields(line)| == CommasOutsideQuotes(line, false) + 1
  {
    LineScanLength(line, false, "", []);
  }

  lemma {:induction false} LineScanNoQuotes(rest: string, current: string, result: seq<string>)
    requires '"' !in rest
    ensures LineScan(rest, false, current, result)
         == result + [current + Split(rest, ',')[0]] + Split(rest, ',')[1..]
    decreases |rest|
  {
    if rest == [] {
      assert current + "" == current;
    } else {
      var tail := rest[1..];
      assert '"' !in tail by { assert forall k :: 0 <= k < |tail| ==> tail[k] == rest[k + 1]; }
      if rest[0] == ',' {
        LineScanNoQuotes(tail, "", result + [current]);
        NoQuotesComma(rest, current, result);
      } else {
        LineScanNoQuotes(tail, current + [rest[0]], result);
        NoQuotesChar(rest, current, result);
      }
    }
  }

  lemma {:induction false} NoQuotesComma(rest: string, current: string, result: seq<string>)
    requires rest != [] && rest[0] == ','
    requires LineScan(rest[1..], false, "", result + [current])
          == result + [current] + ["" + Split(rest[1..], ',')[0]] + Split(rest[1..], ',')[1..]
    ensures LineScan(rest, false, current, result)
         == result + [current + Split(rest, ',')[0]] + Split(rest, ',')[1..]
  {
    var parts := Split(rest[1..], ',');
    assert LineScan(rest, false, current, result) == LineScan(rest[1..], false, "", result + [current]);
    assert Split(rest, ',') == [""] + parts;
    CommaShape(result, current, parts);
  }

  lemma {:induction false} CommaShape(result: seq<string>, current: string, parts: seq<string>)
    requires |parts| >= 1
    ensures result + [current] + ["" + parts[0]] + parts[1..]
         == result + [current + ([""] + parts)[0]] + ([""] + parts)[1..]
  {
    assert "" + parts[0] == parts[0];
    assert current + "" == current;
    assert ([""] + parts)[1..] == parts;
    assert [parts[0]] + parts[1..] == parts;
  }

  lemma {:induction false} NoQuotesChar(rest: string, current: string, result: seq<string>)
    requires rest != [] && rest[0] != ',' && rest[0] != '"'
    requires LineScan(rest[1..], false, current + [rest[0]], result)
          == result + [current + [rest[0]] + Split(rest[1..], ',')[0]] + Split(rest[1..], ',')[1..]
    ensures LineScan(rest, false, current, result)
         == result + [current + Split(rest, ',')[0]] + Split(rest, ',')[1..]
  {
    var parts := Split(rest[1..], ',');
    assert Split(rest, ',') == [[rest[0]] + parts[0]] + parts[1..];
    assert current + [rest[0]] + parts[0] == current + ([rest[0]] + parts[0]);
  }

  /** A line without quotes is split at every comma. */
  lemma {:induction false} QuoteFreeLineSplits(line: string)
    requires '"' !in line
    ensures LineFields(line) == Split(line, ',')
  {
    LineScanNoQuotes(line, "", []);
    PartsShape(Split(line, ','));
  }

  lemma {:induction false} PartsShape(parts: seq<string>)
    requires |parts| >= 1
    ensures [] + ["" + parts[0]] + parts[1..] == parts
  {
    assert "" + parts[0] == parts[0];
    assert [parts[0]] + parts[1..] == parts;
  }

  // ---- escapeCsv ----

  /** The text of a cell: null and undefined are empty, anything else is
      `String(v)`. */
  function CellText(v: Value): string
  {
    if Nullish(v) then "" else ToStr(v)
  }

  predicate NeedsQuotes(s: string)
  {
    '"' in s || ',' in s || '\n' in s
  }

  /** `s.replace(/"/g, '""')` */
  function DoubleQuotes(s: string): (r: string)
    ensures '"' !in s ==> r == s
  {
    if s == [] then "" else (if s[0] == '"' then "\"\"" else [s[0]]) + DoubleQuotes(s[1..])
  }

  function EscapeString(s: string): string
  {
    if NeedsQuotes(s) then "\"" + DoubleQuotes(s) + "\"" else s
  }

  /** `escapeCsv`: a text with a quote, comma or line feed is wrapped in
      quotes, any other text is written as it is. */
  function EscapeCsv(v: Value): (r: string)
    ensures !NeedsQuotes(CellText(v)) ==> r == CellText(v)
    ensures NeedsQuotes(CellText(v)) ==> |r| >= 2 && r[0] == '"' && r[|r| - 1] == '"'
  {
    EscapeString(CellText(v))
  }

  lemma {:induction false} ScanPlain(f: string, rest: string, current: string, result: seq<string>)
    requires !NeedsQuotes(f)
    ensures LineScan(f + rest, false, current, result) == LineScan(rest, false, current + f, result)
    decreases |f|
  {
    if f == [] {
      assert f + rest == rest && current + f == current;
    } else {
      assert (f + rest)[0] == f[0] && (f + rest)[1..] == f[1..] + rest;
      assert !NeedsQuotes(f[1..]) by {
        assert forall k :: 0 <= k < |f[1..]| ==> f[1..][k] == f[k + 1];
      }
      ScanPlain(f[1..], rest, current + [f[0]], result);
      assert current + [f[0]] + f[1..] == current + f;
    }
  }

  lemma {:induction false} ScanQuotedBody(f: string, rest: string, current: string, result: seq<string>)
    requires rest == [] || rest[0] != '"'
    ensures LineScan(DoubleQuotes(f) + "\"" + rest, true, current, result) == LineScan(rest, false, current + f, result)
    decreases |f|
  {
    if f == [] {
      assert DoubleQuotes(f) + "\"" + rest == "\"" + rest;
      LineQuoteClose(rest, current, result);
      assert current + f == current;
    } else {
      var v := current + [f[0]];
      assert v + f[1..] == current + f;
      calc {
        LineScan(DoubleQuotes(f) + "\"" + rest, true, current, result);
        { LineQuotedChar(f, rest, current, result); }
        LineScan(DoubleQuotes(f[1..]) + "\"" + rest, true, v, result);
        { ScanQuotedBody(f[1..], rest, v, result); }
        LineScan(rest, false, v + f[1..], result);
      }
    }
  }

  lemma {:induction false} LineQuoteClose(rest: string, current: string, result: seq<string>)
    requires rest == [] || rest[0] != '"'
    ensures LineScan("\"" + rest, true, current, result) == LineScan(rest, false, current, result)
  {
    assert ("\"" + rest)[1..] == rest;
  }

  /** One character of a quoted field: a doubled quote reads as one quote. */
  lemma {:induction false} LineQuotedChar(f: string, rest: string, current: string, result: seq<string>)
    requires f != []
    ensures LineScan(DoubleQuotes(f) + "\"" + rest, true, current, result)
         == LineScan(DoubleQuotes(f[1..]) + "\"" + rest, true, current + [f[0]], result)
  {
    var tail := DoubleQuotes(f[1..]) + "\"" + rest;
    if f[0] == '"' {
      QuotedPieces(f, rest, "\"\"");
      assert (DoubleQuotes(f) + "\"" + rest)[2..] == tail;
      assert current + "\"" == current + [f[0]];
    } else {
      QuotedPieces(f, rest, [f[0]]);
      assert (DoubleQuotes(f) + "\"" + rest)[1..] == tail;
    }
  }

  lemma {:induction false} QuotedPieces(f: string, rest: string, head: string)
    requires f != [] && head == if f[0] == '"' then "\"\"" else [f[0]]
    ensures DoubleQuotes(f) + "\"" + rest == head + (DoubleQuotes(f[1..]) + "\"" + rest)
  {
    assert DoubleQuotes(f) == head + DoubleQuotes(f[1..]);
  }

  /** An escaped field followed by a comma or the end of the line scans back
      to its text. */
  lemma {:induction false} ScanEscaped(f: string, rest: string, result: seq<string>)
    requires rest == [] || rest[0] == ','
    ensures LineScan(EscapeString(f) + rest, false, "", result) == LineScan(rest, false, f, result)
  {
    if NeedsQuotes(f) {
      var t := "\"" + DoubleQuotes(f) + "\"" + rest;
      assert t[1..] == DoubleQuotes(f) + "\"" + rest;
      ScanQuotedBody(f, rest, "", result);
      assert "" + f == f;
    } else {
      ScanPlain(f, rest, "", result);
      assert "" + f == f;
    }
  }

  function EscapeAll(fields: seq<string>): (r: seq<string>)
    ensures |r| == |fields| && forall k :: 0 <= k < |fields| ==> r[k] == EscapeString(fields[k])
  {
    seq(|fields|, k requires 0 <= k < |fields| => EscapeString(fields[k]))
  }

  lemma {:induction false} ScanJoined(fields: seq<string>, result: seq<string>)
    requires |fields| >= 1
    ensures LineScan(Join(EscapeAll(fields), ","), false, "", result) == result + fields
    decreases |fields|
  {
    if |fields| == 1 {
      ScanLastField(fields, result);
    } else {
      ScanFirstField(fields, result);
      ScanJoined(fields[1..], result + [fields[0]]);
      Seqs.ConsAppend(result, fields);
    }
  }

  lemma {:induction false} ScanLastField(fields: seq<string>, result: seq<string>)
    requires |fields| == 1
    ensures LineScan(Join(EscapeAll(fields), ","), false, "", result) == result + fields
  {
    ScanEscaped(fields[0], "", result);
    assert EscapeAll(fields)[0] + "" == EscapeAll(fields)[0];
    assert fields == [fields[0]];
  }

  /** The first of two or more escaped fields and its comma. */
  lemma {:induction false} ScanFirstField(fields: seq<string>, result: seq<string>)
    requires |fields| >= 2
    ensures LineScan(Join(EscapeAll(fields), ","), false, "", result)
         == LineScan(Join(EscapeAll(fields[1..]), ","), false, "", result + [fields[0]])
  {
    var tail := Join(EscapeAll(fields[1..]), ",");
    JoinEscapedCons(fields);
    ScanEscaped(fields[0], "," + tail, result);
    assert ("," + tail)[1..] == tail;
  }

  lemma {:induction false} JoinEscapedCons(fields: seq<string>)
    requires |fields| >= 2
    ensures Join(EscapeAll(fields), ",") == EscapeString(fields[0]) + ("," + Join(EscapeAll(fields[1..]), ","))
  {
    var e := EscapeAll(fields);
    assert EscapeAll(fields[1..]) == e[1..];
    assert Join(e, ",") == e[0] + "," + Join(e[1..], ",");
  }

  /** Row round trip of the line codec: `parseCsvLine` of escaped fields
      joined by commas gives back the fields, whatever characters they hold. */
  lemma {:induction false} LineRoundTrip(fields: seq<string>)
    requires |fields| >= 1
    ensures LineFields(Join(EscapeAll(fields), ",")) == fields
  {
    ScanJoined(fields, []);
  }

  /** Single-field round trip: `parseCsvLine(escapeCsv(v))` is `[String(v)]`
      (the empty string for null and undefined). */
  lemma {:induction false} EscapeCsvRoundTrip(v: Value)
    ensures LineFields(EscapeCsv(v)) == [CellText(v)]
  {
    LineRoundTrip([CellText(v)]);
    assert Join(EscapeAll([CellText(v)]), ",") == EscapeCsv(v);
  }

  // ---- parseCsv ----

  /** Drops one trailing carriage return. */
  function DropCR(s: string): string
  {
    if s != [] && s[|s| - 1] == '\r' then s[..|s| - 1] else s
  }

  /** `text.split(/\r?\n/)`: split at each line feed, and remove a carriage
      return that directly precedes one. */
  function SplitLines(text: string): (r: seq<string>)
    ensures |r| == |Split(text, '\n')|
  {
    var parts := Split(text, '\n');
    seq(|parts|, k requires 0 <= k < |parts| => if k < |parts| - 1 then DropCR(parts[k]) else parts[k])
  }

  /** `lines.filter((line) => line.trim() !== "")`; by `BlankIffTrimsEmpty`
      a line trims to the empty string exactly when it is `Blank`. */
  function NonBlank(lines: seq<string>): (r: seq<string>)
    ensures forall k :: 0 <= k < |r| ==> !Blank(r[k])
    ensures |r| <= |lines|
  {
    if lines == [] then []
    else (if !Blank(lines[0]) then [lines[0]] else []) + NonBlank(lines[1..])
  }

  /** `headers.forEach((header, index) => { row[header] = values[index] ?? ""; })`
      from header `i` on. */
  function FillRow(row: seq<(string, Value)>, headers: seq<string>, values: seq<string>, i: nat): seq<(string, Value)>
    decreases |headers| - i
  {
    if i >= |headers| then row
    else FillRow(Put(row, headers[i], Str(if i < |values| then values[i] else "")), headers, values, i + 1)
  }

  function RowObject(headers: seq<string>, values: seq<string>): Value
  {
    Obj(FillRow([], headers, values, 0))
  }

  /** A header that is an array index is listed first: the row of `b,1`
      over `x,y` has the keys `["1", "b"]`. */
  lemma {:induction false} IndexHeaderFirst()
    ensures Keys(RowObject(["b", "1"], ["x", "y"])) == ["1", "b"]
  {
    assert DigitsValue("1") == 1 && NatToString(1) == "1";
    assert IsArrayIndex("1") && !IsArrayIndex("b");
    var row := Put([], "b", Str("x"));
    assert row == [("b", Str("x"))];
    assert Put(row, "1", Str("y")) == [("1", Str("y")), ("b", Str("x"))];
  }

  /** `parseCsv` */
  function ParseCsv(text: string): (rows: seq<Value>)
    ensures NonBlank(SplitLines(text)) == [] ==> rows == []
    ensures NonBlank(SplitLines(text)) != [] ==> |rows| == |NonBlank(SplitLines(text))| - 1
  {
    var lines := NonBlank(SplitLines(text));
    if |lines| == 0 then []
    else
      var headers := TrimEach(LineFields(lines[0]));
      seq(|lines| - 1, k requires 0 <= k < |lines| - 1 => RowObject(headers, LineFields(lines[k + 1])))
  }

  lemma {:induction false} FillRowLookup(row: seq<(string, Value)>, headers: seq<string>, values: seq<string>, i: nat, j: nat)
    requires i <= j < |headers|
    requires forall a, b :: 0 <= a < b < |headers| ==> headers[a] != headers[b]
    ensures Lookup(FillRow(row, headers, values, i), headers[j]) == Str(if j < |values| then values[j] else "")
    decreases |headers| - i
  {
    var next := Put(row, headers[i], Str(if i < |values| then values[i] else ""));
    if i == j {
      FillRowUntouched(next, headers, values, i + 1, headers[j]);
      PutLookup(row, headers[i], Str(if i < |values| then values[i] else ""), headers[j]);
    } else {
      FillRowLookup(next, headers, values, i + 1, j);
    }
  }

  lemma {:induction false} FillRowUntouched(row: seq<(string, Value)>, headers: seq<string>, values: seq<string>, i: nat, key: string)
    requires forall a :: i <= a < |headers| ==> headers[a] != key
    ensures Lookup(FillRow(row, headers, values, i), key) == Lookup(row, key)
    decreases |headers| - i
  {
    if i < |headers| {
      PutLookup(row, headers[i], Str(if i < |values| then values[i] else ""), key);
      FillRowUntouched(Put(row, headers[i], Str(if i < |values| then values[i] else "")), headers, values, i + 1, key);
    }
  }

  lemma {:induction false} FillRowKeys(row: seq<(string, Value)>, headers: seq<string>, values: seq<string>, i: nat)
    requires i <= |headers|
    requires forall a, b :: 0 <= a < b < |headers| ==> headers[a] != headers[b]
    requires KeyOrderOf(PropKeys(row), headers[..i])
    ensures KeyOrderOf(PropKeys(FillRow(row, headers, values, i)), headers)
    decreases |headers| - i
  {
    if i < |headers| {
      var v := Str(if i < |values| then values[i] else "");
      NextHeader(headers, i);
      PutKeyOrder(row, headers[i], v, headers[..i]);
      FillRowKeys(Put(row, headers[i], v), headers, values, i + 1);
    } else {
      assert headers[..i] == headers;
    }
  }

  lemma {:induction false} NextHeader(headers: seq<string>, i: int)
    requires 0 <= i < |headers|
    requires forall a, b :: 0 <= a < b < |headers| ==> headers[a] != headers[b]
    ensures headers[i] !in headers[..i] && headers[..i] + [headers[i]] == headers[..i + 1]
  {
    assert headers[..i + 1] == headers[..i] + [headers[i]];
  }

  /** With distinct headers, a parsed row has exactly the headers as keys,
      listed in `Object.keys` order (array indices such as "2021" first, in
      ascending order, then the other headers in header order, which is all
      of them when no header is an index), and each header holds its
      positional value, or "" when the line is short. */
  lemma {:induction false} RowObjectSpec(headers: seq<string>, values: seq<string>)
    requires forall a, b :: 0 <= a < b < |headers| ==> headers[a] != headers[b]
    ensures KeyOrderOf(Keys(RowObject(headers, values)), headers)
    ensures (forall j :: 0 <= j < |headers| ==> IsNamedKey(headers[j])) ==> Keys(RowObject(headers, values)) == headers
    ensures forall j :: 0 <= j < |headers| ==>
      Member(RowObject(headers, values), headers[j]) == Ok(Str(if j < |values| then values[j] else ""))
  {
    assert headers[..0] == [];
    FillRowKeys([], headers, values, 0);
    if forall j :: 0 <= j < |headers| ==> IsNamedKey(headers[j]) {
      KeyOrderPlain(Keys(RowObject(headers, values)), headers);
    }
    forall j | 0 <= j < |headers|
      ensures Member(RowObject(headers, values), headers[j]) == Ok(Str(if j < |values| then values[j] else ""))
    {
      FillRowLookup([], headers, values, 0, j);
    }
  }

  // ---- toCsv ----

  /** The texts of a row's cells, `String(row[column] ?? "")` for each
      column. */
  function RowTexts(row: Value, columns: seq<string>): (r: seq<string>)
    requires !Nullish(row) || columns == []
    ensures |r| == |columns|
  {
    seq(|columns|, j requires 0 <= j < |columns| => CellText(Member(row, columns[j]).value))
  }

  /** `columns.map((column) => escapeCsv(row[column])).join(",")` */
  function RowLine(row: Value, columns: seq<string>): string
    requires !Nullish(row) || columns == []
  {
    Join(EscapeAll(RowTexts(row, columns)), ",")
  }

  /** The body lines of `toCsv`; reading a column of a null or undefined row
      throws. */
  function BodyLines(rows: seq<Value>, columns: seq<string>): (r: Outcome<seq<string>>)
    ensures r.Ok? <==> (columns == [] || forall k :: 0 <= k < |rows| ==> !Nullish(rows[k]))
    ensures r.Ok? ==> |r.value| == |rows|
  {
    if rows == [] then Ok([])
    else if columns != [] && Nullish(rows[0]) then Throws
    else
      match BodyLines(rows[1..], columns)
      case Throws => Throws
      case Ok(rest) => Ok([RowLine(rows[0], columns)] + rest)
  }

  lemma {:induction false} BodyLinesRows(rows: seq<Value>, columns: seq<string>)
    requires BodyLines(rows, columns).Ok?
    ensures forall k :: 0 <= k < |rows| ==>
      (!Nullish(rows[k]) || columns == []) && BodyLines(rows, columns).value[k] == RowLine(rows[k], columns)
  {
    forall k | 0 <= k < |rows|
      ensures (!Nullish(rows[k]) || columns == []) && BodyLines(rows, columns).value[k] == RowLine(rows[k], columns)
    {
      BodyLinesAt(rows, columns, k);
    }
  }

  lemma {:induction false} BodyLinesAt(rows: seq<Value>, columns: seq<string>, k: nat)
    requires BodyLines(rows, columns).Ok? && k < |rows|
    ensures (!Nullish(rows[k]) || columns == []) && k < |BodyLines(rows, columns).value|
    ensures BodyLines(rows, columns).value[k] == RowLine(rows[k], columns)
  {
    if k > 0 {
      assert rows[1..][k - 1] == rows[k];
      BodyLinesAt(rows[1..], columns, k - 1);
    }
  }

  /** `toCsv`: the escaped header line, then one line per row, joined by line
      feeds; reading a column of a null or undefined row throws. */
  function ToCsv(rows: seq<Value>, columns: seq<string>): (r: Outcome<string>)
    ensures r.Ok? <==> (columns == [] || forall k :: 0 <= k < |rows| ==> !Nullish(rows[k]))
    ensures r.Ok? ==> Join(EscapeAll(columns), ",") <= r.value
    ensures rows == [] ==> r == Ok(Join(EscapeAll(columns), ","))
  {
    var header := Join(EscapeAll(columns), ",");
    match BodyLines(rows, columns)
    case Throws => Throws
    case Ok(body) =>
      assert ([header] + body)[0] == header && ([header] + body)[1..] == body;
      Ok(Join([header] + body, "\n"))
  }

  /** One row gives the header line, a line feed and the row's line. */
  lemma {:induction false} ToCsvOneRow(row: Value, columns: seq<string>)
    requires !Nullish(row) || columns == []
    ensures ToCsv([row], columns) == Ok(Join(EscapeAll(columns), ",") + "\n" + RowLine(row, columns))
  {
    var header, line := Join(EscapeAll(columns), ","), RowLine(row, columns);
    assert [row][0] == row && [row][1..] == [];
    assert BodyLines([row], columns) == Ok([line] + []) && [line] + [] == [line];
    var parts := [header] + [line];
    assert |parts| == 2 && parts[0] == header && parts[1..] == [line];
    assert Join(parts[1..], "\n") == line;
    assert Join(parts, "\n") == header + "\n" + line;
    assert ToCsv([row], columns) == Ok(Join(parts, "\n"));
  }

  /** The row of the escaping test in tests/data_helpers.test.js (lines
      14-18) under the code as written: `toCsv` puts the header line
      `name,city` before the escaped row, so its text is not the lone row
      line the test expects. */
  lemma {:induction false} ToCsvWritesHeader()
    ensures var row := Obj([("name", Str("A, \"B\"")), ("city", Str("NY"))]);
      var r := ToCsv([row], ["name", "city"]);
      r.Ok? && "name,city\n" <= r.value && r.value != "\"A, \"\"B\"\"\",NY"
  {
    var row := Obj([("name", Str("A, \"B\"")), ("city", Str("NY"))]);
    ToCsvOneRow(row, ["name", "city"]);
    ExampleHeader();
    var line := RowLine(row, ["name", "city"]);
    assert ("name,city" + "\n" + line)[..10] == "name,city\n";
    assert "\"A, \"\"B\"\"\",NY"[0] == '"';
  }

  lemma {:induction false} ExampleHeader()
    ensures Join(EscapeAll(["name", "city"]), ",") == "name,city"
  {
    var cols := ["name", "city"];
    assert '"' !in "name" && ',' !in "name" && '\n' !in "name";
    assert '"' !in "city" && ',' !in "city" && '\n' !in "city";
    assert EscapeAll(cols) == cols;
    assert cols[1..] == ["city"];
    assert Join(cols, ",") == "name" + "," + "city";
  }

  // ---- table round trip ----

  lemma {:induction false} DoubleQuotesAvoids(s: string, c: char)
    requires c != '"' && c !in s
    ensures c !in DoubleQuotes(s)
  {
    if s != [] {
      DoubleQuotesAvoids(s[1..], c);
    }
  }

  lemma {:induction false} EscapeAvoids(s: string, c: char)
    requires c != '"' && c !in s
    ensures c !in EscapeString(s)
  {
    DoubleQuotesAvoids(s, c);
  }

  /** The cell texts of a row that does not throw. */
  function CellTexts(cells: seq<Value>): (r: seq<string>)
    ensures |r| == |cells| && forall k :: 0 <= k < |cells| ==> r[k] == CellText(cells[k])
  {
    seq(|cells|, k requires 0 <= k < |cells| => CellText(cells[k]))
  }

  /** A line of escaped fields avoids every character but the quote that no
      field and not the comma holds. */
  lemma {:induction false} EscapedLineAvoids(fields: seq<string>, c: char)
    requires c != '"' && c != ','
    requires forall k :: 0 <= k < |fields| ==> c !in fields[k]
    ensures c !in Join(EscapeAll(fields), ",")
  {
    forall k | 0 <= k < |fields| ensures c !in EscapeAll(fields)[k] {
      EscapeAvoids(fields[k], c);
    }
    JoinAvoids(EscapeAll(fields), ",", c);
  }

  /** A line of two or more fields holds a comma, so it is not blank. */
  lemma {:induction false} EscapedLineNotBlank(fields: seq<string>)
    requires |fields| >= 2
    ensures !Blank(Join(EscapeAll(fields), ","))
  {
    var e := EscapeAll(fields);
    var line := Join(e, ",");
    assert line == e[0] + ("," + Join(e[1..], ","));
    assert line[|e[0]|] == ',';
  }

  /** The test `NonBlank` applies to a line. */
  predicate NotBlank(line: string)
  {
    !Blank(line)
  }

  /** `NonBlank` is `Array.prototype.filter` with that test: the lines that
      are not blank, in order, each as often as in `lines`, and nothing else. */
  lemma {:induction false} NonBlankIsFilter(lines: seq<string>)
    ensures NonBlank(lines) == Seqs.Filter(lines, NotBlank)
    ensures forall l :: multiset(NonBlank(lines))[l] == if Blank(l) then 0 else multiset(lines)[l]
  {
    if lines != [] {
      NonBlankIsFilter(lines[1..]);
    }
    forall l {
      Seqs.FilterCount(lines, NotBlank, l);
    }
  }

  lemma {:induction false} NonBlankKeeps(lines: seq<string>)
    requires forall k :: 0 <= k < |lines| ==> !Blank(lines[k])
    ensures NonBlank(lines) == lines
  {
    if lines != [] {
      NonBlankKeeps(lines[1..]);
    }
  }

  lemma {:induction false} SplitLinesOfJoin(lines: seq<string>)
    requires |lines| >= 1
    requires forall k :: 0 <= k < |lines| ==> '\n' !in lines[k] && '\r' !in lines[k]
    ensures SplitLines(Join(lines, "\n")) == lines
  {
    SplitJoin(lines, '\n');
    forall k | 0 <= k < |lines| ensures DropCR(lines[k]) == lines[k] {
      if lines[k] != [] {
        assert lines[k][|lines[k]| - 1] in lines[k];
      }
    }
  }

  /** `parseCsv` of lines that hold no line break and are not blank: the
      first line gives the headers, every other line one row. */
  lemma {:induction false} ParseJoinedLines(lines: seq<string>)
    requires |lines| >= 1
    requires forall k :: 0 <= k < |lines| ==> '\n' !in lines[k] && '\r' !in lines[k] && !Blank(lines[k])
    ensures ParseCsv(Join(lines, "\n"))
         == seq(|lines| - 1, k requires 0 <= k < |lines| - 1 =>
              RowObject(TrimEach(LineFields(lines[0])), LineFields(lines[k + 1])))
  {
    SplitLinesOfJoin(lines);
    NonBlankKeeps(lines);
  }

  /** A line of two or more escaped fields without line breaks is one
      non-blank line that parses back to the fields. */
  lemma {:induction false} EscapedLineFacts(fields: seq<string>)
    requires |fields| >= 2
    requires forall j :: 0 <= j < |fields| ==> '\n' !in fields[j] && '\r' !in fields[j]
    ensures var line := Join(EscapeAll(fields), ",");
      '\n' !in line && '\r' !in line && !Blank(line) && LineFields(line) == fields
  {
    EscapedLineAvoids(fields, '\n');
    EscapedLineAvoids(fields, '\r');
    EscapedLineNotBlank(fields);
    LineRoundTrip(fields);
  }

  /** The conditions of the table round trip: at least two distinct
      columns without surrounding white space, and no line feed or carriage
      return in a column name or a cell. */
  predicate RoundTripTable(rows: seq<Value>, columns: seq<string>)
  {
    && |columns| >= 2
    && (forall a, b :: 0 <= a < b < |columns| ==> columns[a] != columns[b])
    && (forall j :: 0 <= j < |columns| ==> Trimmed(columns[j]) && '\n' !in columns[j] && '\r' !in columns[j])
    && (forall k :: 0 <= k < |rows| ==> !Nullish(rows[k]))
    && (forall k :: 0 <= k < |rows| ==> forall j :: 0 <= j < |columns| ==>
          '\n' !in RowTexts(rows[k], columns)[j] && '\r' !in RowTexts(rows[k], columns)[j])
  }

  lemma {:induction false} HeaderLineFacts(rows: seq<Value>, columns: seq<string>)
    requires RoundTripTable(rows, columns)
    ensures var line := Join(EscapeAll(columns), ",");
      && '\n' !in line && '\r' !in line && !Blank(line) && LineFields(line) == columns
  {
    EscapedLineFacts(columns);
  }

  lemma {:induction false} BodyLineFacts(rows: seq<Value>, columns: seq<string>, k: int)
    requires RoundTripTable(rows, columns)
    requires 0 <= k < |rows|
    ensures var line := BodyLines(rows, columns).value[k];
      && '\n' !in line && '\r' !in line && !Blank(line) && LineFields(line) == RowTexts(rows[k], columns)
  {
    BodyLinesRows(rows, columns);
    var texts := RowTexts(rows[k], columns);
    assert forall j :: 0 <= j < |texts| ==> '\n' !in texts[j] && '\r' !in texts[j];
    EscapedLineFacts(texts);
  }

  /** Under `RoundTripTable`, `parseCsv(toCsv(rows, columns))` builds each row
      object from the column names and the texts of the row's cells. */
  lemma {:induction false} ParseToCsv(rows: seq<Value>, columns: seq<string>)
    requires RoundTripTable(rows, columns)
    ensures ToCsv(rows, columns).Ok?
    ensures |ParseCsv(ToCsv(rows, columns).value)| == |rows|
    ensures forall k :: 0 <= k < |rows| ==>
      ParseCsv(ToCsv(rows, columns).value)[k] == RowObject(columns, RowTexts(rows[k], columns))
  {
    var body := BodyLines(rows, columns).value;
    var lines := [Join(EscapeAll(columns), ",")] + body;
    HeaderLineFacts(rows, columns);
    forall k | 0 <= k < |lines|
      ensures '\n' !in lines[k] && '\r' !in lines[k] && !Blank(lines[k])
    {
      if k > 0 {
        assert lines[k] == body[k - 1];
        BodyLineFacts(rows, columns, k - 1);
      }
    }
    assert ToCsv(rows, columns) == Ok(Join(lines, "\n"));
    ParseJoinedLines(lines);
    TrimEachFixed(columns);
    var parsed := ParseCsv(Join(lines, "\n"));
    forall k | 0 <= k < |rows| ensures parsed[k] == RowObject(columns, RowTexts(rows[k], columns)) {
      assert parsed[k] == RowObject(TrimEach(LineFields(lines[0])), LineFields(lines[k + 1]));
      assert lines[k + 1] == body[k];
      BodyLineFacts(rows, columns, k);
    }
  }

  /** Table round trip: `parseCsv(toCsv(rows, columns))` gives one object per
      row whose keys are the columns, in `Object.keys` order (the columns
      themselves when none is an array index), each holding the text of the row's
      value (`String(row[column] ?? "")`). Two columns at least are needed
      because a one-column row whose value is empty is an empty line, which
      `parseCsv` drops. */
  lemma {:induction false} TableRoundTrip(rows: seq<Value>, columns: seq<string>)
    requires RoundTripTable(rows, columns)
    ensures ToCsv(rows, columns).Ok?
    ensures |ParseCsv(ToCsv(rows, columns).value)| == |rows|
    ensures forall k :: 0 <= k < |rows| ==> KeyOrderOf(Keys(ParseCsv(ToCsv(rows, columns).value)[k]), columns)
    ensures (forall j :: 0 <= j < |columns| ==> IsNamedKey(columns[j])) ==>
      forall k :: 0 <= k < |rows| ==> Keys(ParseCsv(ToCsv(rows, columns).value)[k]) == columns
    ensures forall k, j :: 0 <= k < |rows| && 0 <= j < |columns| ==>
      Member(ParseCsv(ToCsv(rows, columns).value)[k], columns[j])
        == Ok(Str(CellText(Member(rows[k], columns[j]).value)))
  {
    ParseToCsv(rows, columns);
    var parsed := ParseCsv(ToCsv(rows, columns).value);
    forall k | 0 <= k < |rows|
      ensures KeyOrderOf(Keys(parsed[k]), columns)
      ensures (forall j :: 0 <= j < |columns| ==> IsNamedKey(columns[j])) ==> Keys(parsed[k]) == columns
      ensures forall j :: 0 <= j < |columns| ==>
        Member(parsed[k], columns[j]) == Ok(Str(CellText(Member(rows[k], columns[j]).value)))
    {
      RowObjectSpec(columns, RowTexts(rows[k], columns));
    }
  }
}
