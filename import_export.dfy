/** src/import_export.js: the CSV export of all records, the import of a
    CSV or JSON file into a preview, and the commit of that preview. */
module ImportExport {
  import opened Text
  import opened JsValue
  import opened Model
  import opened Seqs
  import DataHelpers
  import Utils
  import App

  // ---- export ----

  /** The header row: the eight field names, in record order. */
  function HeaderRow(): (row: seq<Value>)
    ensures |row| == |FieldNames| && forall j :: 0 <= j < |FieldNames| ==> row[j] == Str(FieldNames[j])
  {
    [Str("id"), Str("title"), Str("body"), Str("tags"), Str("status"), Str("rating"), Str("createdAt"), Str("updatedAt")]
  }

  /** The row of one record: its fields in header order, the tags joined by
      commas into one cell. */
  function ExportRow(r: Record): (row: seq<Value>)
    ensures |row| == |HeaderRow()|
  {
    [r.id, Str(r.title), Str(r.body), Str(Join(r.tags, ",")), Str(StatusName(r.status)), Num(r.rating),
     r.createdAt, r.updatedAt]
  }

  /** The table the export handler passes to `csvStringify`. */
  function ExportTable(records: seq<Record>): (rows: seq<seq<Value>>)
    ensures |rows| == |records| + 1 && rows[0] == HeaderRow()
    ensures forall k :: 0 <= k < |records| ==> rows[k + 1] == ExportRow(records[k])
  {
    [HeaderRow()] + seq(|records|, k requires 0 <= k < |records| => ExportRow(records[k]))
  }

  /** The export handler's loop: the header, then a row pushed per record. */
  method BuildExport(records: seq<Record>) returns (rows: seq<seq<Value>>)
    ensures rows == ExportTable(records)
  {
    rows := [HeaderRow()];
    var k := 0;
    while k < |records|
      invariant 0 <= k <= |records|
      invariant |rows| == k + 1 && rows[0] == HeaderRow()
      invariant forall j :: 0 <= j < k ==> rows[j + 1] == ExportRow(records[j])
    {
      rows := rows + [ExportRow(records[k])];
      k := k + 1;
    }
  }

  /** The exported text. */
  function ExportCsv(records: seq<Record>): string
  {
    Utils.CsvStringify(ExportTable(records))
  }

  // ---- import ----

  /** `header.indexOf(name)` */
  function IndexOf(header: seq<string>, name: string): (i: int)
    ensures -1 <= i < |header|
    ensures i == -1 <==> name !in header
    ensures i >= 0 ==> header[i] == name && name !in header[..i]
  {
    if name in header then FirstIndex(header, name) else -1
  }

  /** `row[i]` on a row of strings: any index outside the row, -1 included,
      reads as undefined. */
  function CellAt(row: seq<string>, i: int): (v: Value)
    ensures 0 <= i < |row| ==> v == Str(row[i])
    ensures !(0 <= i < |row|) ==> v == Undefined
  {
    if 0 <= i < |row| then Str(row[i]) else Undefined
  }

  /** `row[index(name)]` */
  function Column(header: seq<string>, row: seq<string>, name: string): Value
  {
    CellAt(row, IndexOf(header, name))
  }

  /** The raw record a CSV row maps to, before `normalizeRecord`: one
      property per field name, in record order. */
  function RawRecord(header: seq<string>, row: seq<string>): Value
  {
    Obj(seq(|FieldNames|, j requires 0 <= j < |FieldNames| => (FieldNames[j], Column(header, row, FieldNames[j]))))
  }

  /** Each field of the raw record is the cell under the column of that
      name. */
  lemma {:induction false} RawRecordField(header: seq<string>, row: seq<string>, j: int)
    requires 0 <= j < |FieldNames|
    ensures Field(RawRecord(header, row), FieldNames[j]) == Column(header, row, FieldNames[j])
  {
    var ps := OwnProps(RawRecord(header, row));
    assert PropKeys(ps) == FieldNames;
    FieldLookup(ps, j);
  }

  /** `const [header, ...bodyRows] = rows` and the mapping of the body rows;
      with no rows there is no body and the missing header is never read. */
  function CsvRaws(rows: seq<seq<string>>): (raws: seq<Value>)
    ensures |raws| == if rows == [] then 0 else |rows| - 1
    ensures forall k :: 0 <= k < |raws| ==> raws[k] == RawRecord(rows[0], rows[k + 1])
  {
    if rows == [] then []
    else seq(|rows| - 1, k requires 0 <= k < |rows| - 1 => RawRecord(rows[0], rows[k + 1]))
  }

  /** The first `n` environments `supply` hands out: `uuid()` and `nowIso()` for each
      `normalizeRecord` call in turn. */
  function Envs(n: nat, supply: nat -> Env): (envs: seq<Env>)
    ensures |envs| == n && forall k :: 0 <= k < n ==> envs[k] == supply(k)
  {
    seq(n, k requires 0 <= k < n => supply(k))
  }

  /** The records a CSV text previews as. */
  function CsvRecords(rows: seq<seq<string>>, supply: nat -> Env): (records: seq<Record>)
    ensures |records| == |CsvRaws(rows)|
  {
    var raws := CsvRaws(rows);
    assert !App.AnyNullish(raws);
    App.NormalizeAll(raws, Envs(|raws|, supply)).value
  }

  /** The k-th previewed record is the k-th body row, mapped through the
      header and normalized with the k-th environment. */
  lemma {:induction false} CsvRecordsSpec(rows: seq<seq<string>>, supply: nat -> Env, k: int)
    requires 0 <= k < |CsvRaws(rows)|
    ensures CsvRecords(rows, supply)[k] == NormalizeRecord(RawRecord(rows[0], rows[k + 1]), supply(k)).value
  {
    var raws := CsvRaws(rows);
    assert !App.AnyNullish(raws);
    assert raws[k] == RawRecord(rows[0], rows[k + 1]);
    App.NormalizeAllAt(raws, Envs(|raws|, supply), k);
  }

  /** The records a JSON array previews as, once it has passed
      `validateJsonRecords`. */
  function JsonRecords(data: Value, supply: nat -> Env): (records: seq<Record>)
    requires DataHelpers.ValidateJsonRecords(data)
    ensures |records| == |data.elems|
  {
    assert !App.AnyNullish(data.elems);
    App.NormalizeAll(data.elems, Envs(|data.elems|, supply)).value
  }

  /** The new preview of `parseFile`, or `None` when it returns early or
      throws and the preview is kept: a `.json` file whose text does not
      parse (`parsed` is `None`; `JSON.parse` itself is not modelled) or is
      not an array of plain objects. Any other file is read as CSV. */
  function Imported(name: string, text: string, parsed: Option<Value>, supply: nat -> Env): (r: Option<seq<Record>>)
    ensures EndsWith(name, ".json") ==>
      r == if parsed.Some? && DataHelpers.ValidateJsonRecords(parsed.value) then Some(JsonRecords(parsed.value, supply)) else None
    ensures !EndsWith(name, ".json") ==> r == Some(CsvRecords(Utils.ParseRows(text), supply))
  {
    if EndsWith(name, ".json") then
      if parsed.Some? && DataHelpers.ValidateJsonRecords(parsed.value) then Some(JsonRecords(parsed.value, supply))
      else None
    else Some(CsvRecords(Utils.ParseRows(text), supply))
  }

  /** Every previewed record is canonical, as `normalizeRecord` leaves it. */
  lemma {:induction false} ImportedCanonical(name: string, text: string, parsed: Option<Value>, supply: nat -> Env)
    requires forall k: nat :: ValidEnv(supply(k))
    requires Imported(name, text, parsed, supply).Some?
    ensures App.AllCanonical(Imported(name, text, parsed, supply).value)
  {
    if EndsWith(name, ".json") {
      var elems := parsed.value.elems;
      assert !App.AnyNullish(elems);
      App.NormalizeAllCanonical(elems, Envs(|elems|, supply));
    } else {
      var raws := CsvRaws(Utils.ParseRows(text));
      assert !App.AnyNullish(raws);
      App.NormalizeAllCanonical(raws, Envs(|raws|, supply));
    }
  }

  /** The text of the preview. */
  function ReadyText(n: nat): string
  {
    "Ready to import " + NatToString(n) + " records."
  }

  // ---- the export/import round trip ----

  /** A record the CSV export carries intact: normalized, with string id
      and timestamps, no carriage return in any text, and no comma in a
      tag, which would split it on the way back. */
  predicate Exportable(r: Record)
  {
    && Canonical(r) && r.id.Str? && r.createdAt.Str? && r.updatedAt.Str?
    && '\r' !in r.id.s && '\r' !in r.title && '\r' !in r.body
    && '\r' !in r.createdAt.s && '\r' !in r.updatedAt.s
    && forall k :: 0 <= k < |r.tags| ==> '\r' !in r.tags[k] && ',' !in r.tags[k]
  }

  /** The cell texts of an exported record. */
  function ExportedTexts(r: Record): seq<string>
  {
    [ToStr(r.id), r.title, r.body, Join(r.tags, ","), StatusName(r.status), NumberToString(r.rating),
     ToStr(r.createdAt), ToStr(r.updatedAt)]
  }

  /** The cell texts of the exported table. */
  function ExportedTable(records: seq<Record>): seq<seq<string>>
  {
    [FieldNames] + seq(|records|, k requires 0 <= k < |records| => ExportedTexts(records[k]))
  }

  /** The record `normalizeRecord` makes of a CSV row read under the
      exported header: every field arrives as a string. */
  function ReadRow(row: seq<string>, env: Env): (r: Record)
    requires |row| == 8
    ensures ValidEnv(env) ==> Truthy(r.id) && Truthy(r.createdAt) && Truthy(r.updatedAt)
  {
    Record(
      id := Or(Str(row[0]), Str(env.uuid)),
      title := ToStr(Or(Str(row[1]), Str(""))),
      body := ToStr(Or(Str(row[2]), Str(""))),
      tags := NormalizeTags(Str(row[3])),
      status := if row[4] == "archived" then Archived else Active,
      rating := StringToNumber(row[5]),
      createdAt := Or(Str(row[6]), Str(env.createdNow)),
      updatedAt := Or(Str(row[7]), Str(env.updatedNow)))
  }

  lemma {:induction false} JoinAvoidsChar(parts: seq<string>, c: char)
    requires c != ','
    requires forall k :: 0 <= k < |parts| ==> c !in parts[k]
    ensures c !in Join(parts, ",")
    decreases |parts|
  {
    if |parts| > 1 {
      JoinAvoidsChar(parts[1..], c);
    }
  }

  lemma {:induction false} NumberTextPlain(n: Number)
    ensures '\r' !in NumberToString(n)
  {
    match n
    case NaN =>
    case Int(i) =>
      var d := if i < 0 then NatToString(-i) else NatToString(i);
      assert forall k :: 0 <= k < |d| ==> IsDigit(d[k]);
      assert '\r' !in d;
  }

  /** The cell texts of a record's export row, none holding a carriage
      return. */
  lemma {:induction false} ExportTexts(r: Record)
    requires Exportable(r)
    ensures Utils.RowTexts(ExportRow(r)) == ExportedTexts(r)
    ensures forall j :: 0 <= j < |ExportedTexts(r)| ==> '\r' !in ExportedTexts(r)[j]
  {
    JoinAvoidsChar(r.tags, '\r');
    NumberTextPlain(r.rating);
  }

  /** The column of each field name in the exported header. */
  lemma {:induction false} HeaderIndex(j: int)
    requires 0 <= j < 8
    ensures IndexOf(FieldNames, FieldNames[j]) == j
  {
    assert FieldNames[j] in FieldNames;
    assert Distinct(FieldNames);
  }

  /** Read under the exported header, each field of a row of eight cells is
      the cell at that field's place. */
  lemma {:induction false} ExportedColumn(row: seq<string>, j: int)
    requires |row| == 8 && 0 <= j < 8
    ensures Field(RawRecord(FieldNames, row), FieldNames[j]) == Str(row[j])
  {
    HeaderIndex(j);
    RawRecordField(FieldNames, row, j);
  }

  /** `normalizeRecord` of a row read under the exported header. */
  lemma {:induction false} NormalizeExportedRow(row: seq<string>, env: Env)
    requires |row| == 8
    ensures NormalizeRecord(RawRecord(FieldNames, row), env) == Ok(ReadRow(row, env))
  {
    var raw := RawRecord(FieldNames, row);
    ExportedColumn(row, 0);
    ExportedColumn(row, 1);
    ExportedColumn(row, 2);
    ExportedColumn(row, 3);
    ExportedColumn(row, 4);
    ExportedColumn(row, 5);
    ExportedColumn(row, 6);
    ExportedColumn(row, 7);
    assert FieldNames == ["id", "title", "body", "tags", "status", "rating", "createdAt", "updatedAt"];
    NormalizeReadsStrings(raw, row, env);
  }

  lemma {:induction false} NormalizeReadsStrings(raw: Value, row: seq<string>, env: Env)
    requires |row| == 8 && !Nullish(raw)
    requires Field(raw, "id") == Str(row[0]) && Field(raw, "title") == Str(row[1])
    requires Field(raw, "body") == Str(row[2]) && Field(raw, "tags") == Str(row[3])
    requires Field(raw, "status") == Str(row[4]) && Field(raw, "rating") == Str(row[5])
    requires Field(raw, "createdAt") == Str(row[6]) && Field(raw, "updatedAt") == Str(row[7])
    ensures NormalizeRecord(raw, env) == Ok(ReadRow(row, env))
  {
  }

  /** A comma-joined list of tags normalizes back to the list. */
  lemma {:induction false} TagsRoundTrip(tags: seq<string>)
    requires forall k :: 0 <= k < |tags| ==> tags[k] != "" && Trimmed(tags[k]) && ',' !in tags[k]
    ensures NormalizeTags(Str(Join(tags, ","))) == tags
  {
    var joined := Join(tags, ",");
    StrOrEmpty(joined);
    if tags == [] {
      NoTagsRoundTrip();
    } else {
      SplitJoin(tags, ',');
      CleanTagsFixed(tags);
    }
  }

  lemma {:induction false} NoTagsRoundTrip()
    ensures NonEmpty(TrimEach(Split("", ','))) == []
  {
    assert Split("", ',') == [""];
    TrimmedFixed("");
    assert TrimEach([""]) == [""];
  }

  lemma {:induction false} CleanTagsFixed(tags: seq<string>)
    requires forall k :: 0 <= k < |tags| ==> tags[k] != "" && Trimmed(tags[k])
    ensures NonEmpty(TrimEach(tags)) == tags
  {
    TrimEachFixed(tags);
    NonEmptyKeeps(tags);
  }

  /** The texts of an exportable record read back as the record. */
  lemma {:induction false} ReadExported(r: Record, env: Env)
    requires Exportable(r)
    ensures ReadRow(ExportedTexts(r), env) == r
  {
    var n := ReadRow(ExportedTexts(r), env);
    TagsRoundTrip(r.tags);
    NumberStringRoundTrip(r.rating);
    assert n.tags == r.tags;
    assert n.rating == r.rating;
    assert n.status == r.status;
    StrOrEmpty(r.title);
    StrOrEmpty(r.body);
  }

  /** One record, exported to a CSV row and read back under the exported
      header, normalizes to itself. */
  lemma {:induction false} RowRoundTrip(r: Record, env: Env)
    requires Exportable(r)
    ensures NormalizeRecord(RawRecord(FieldNames, Utils.RowTexts(ExportRow(r))), env) == Ok(r)
  {
    ExportTexts(r);
    NormalizeExportedRow(ExportedTexts(r), env);
    ReadExported(r, env);
  }

  /** The texts of an exportable row meet the conditions of the
      `csvStringify`/`csvParse` round trip. */
  lemma {:induction false} ExportedSafe(r: Record)
    requires Exportable(r)
    ensures var t := ExportedTexts(r);
      |t| >= 1 && t != [""] && forall j :: 0 <= j < |t| ==> Utils.SafeCell(t[j])
  {
    ExportTexts(r);
  }

  /** The header line is written without quotes and read back as it is. */
  lemma {:induction false} HeaderSafe()
    ensures |FieldNames| >= 1 && FieldNames != [""] && forall j :: 0 <= j < |FieldNames| ==> Utils.SafeCell(FieldNames[j])
  {
    forall j | 0 <= j < |FieldNames| ensures '\r' !in FieldNames[j] {
    }
  }

  lemma {:induction false} HeaderTexts()
    ensures Utils.RowTexts(HeaderRow()) == FieldNames
  {
  }

  lemma {:induction false} ExportTableRow(records: seq<Record>, k: int)
    requires 0 <= k < |records| && Exportable(records[k])
    ensures Utils.TableTexts(ExportTable(records))[k + 1] == ExportedTexts(records[k])
  {
    assert ExportTable(records)[k + 1] == ExportRow(records[k]);
    ExportTexts(records[k]);
  }

  /** The cell texts of the exported table: the header, then each record's
      texts. */
  lemma {:induction false} ExportTableTexts(records: seq<Record>)
    requires forall k :: 0 <= k < |records| ==> Exportable(records[k])
    ensures Utils.TableTexts(ExportTable(records)) == ExportedTable(records)
  {
    var texts := Utils.TableTexts(ExportTable(records));
    var expected := ExportedTable(records);
    HeaderTexts();
    assert texts[0] == Utils.RowTexts(ExportTable(records)[0]);
    assert |texts| == |expected|;
    forall k | 1 <= k < |texts| ensures texts[k] == expected[k] {
      ExportTableRow(records, k - 1);
      assert expected[k] == ExportedTexts(records[k - 1]);
    }
  }

  lemma {:induction false} ExportTableSafe(records: seq<Record>)
    requires forall k :: 0 <= k < |records| ==> Exportable(records[k])
    ensures Utils.RoundTripRows(ExportedTable(records))
  {
    var texts := ExportedTable(records);
    HeaderSafe();
    assert texts[0] == FieldNames;
    forall k | 1 <= k < |texts|
      ensures |texts[k]| >= 1 && texts[k] != [""] && forall j :: 0 <= j < |texts[k]| ==> Utils.SafeCell(texts[k][j])
    {
      ExportedSafe(records[k - 1]);
    }
  }

  /** Export followed by a CSV import gives back every record, field for
      field, when each record is exportable. */
  lemma {:induction false} ExportImportRoundTrip(records: seq<Record>, supply: nat -> Env)
    requires forall k :: 0 <= k < |records| ==> Exportable(records[k])
    ensures CsvRecords(Utils.ParseRows(ExportCsv(records)), supply) == records
  {
    ExportParses(records);
    var texts := Utils.TableTexts(ExportTable(records));
    var back := CsvRecords(texts, supply);
    forall k | 0 <= k < |records| ensures back[k] == records[k] {
      ImportExportedAt(records, supply, k);
    }
  }

  /** `csvParse` reads the exported text back as the cell texts of the
      export table. */
  lemma {:induction false} ExportParses(records: seq<Record>)
    requires forall k :: 0 <= k < |records| ==> Exportable(records[k])
    ensures Utils.ParseRows(ExportCsv(records)) == Utils.TableTexts(ExportTable(records))
  {
    ExportTableTexts(records);
    ExportTableSafe(records);
    Utils.CsvRoundTrip(ExportTable(records));
  }

  lemma {:induction false} ImportExportedAt(records: seq<Record>, supply: nat -> Env, k: int)
    requires 0 <= k < |records| && Exportable(records[k])
    ensures |CsvRecords(Utils.TableTexts(ExportTable(records)), supply)| == |records|
    ensures CsvRecords(Utils.TableTexts(ExportTable(records)), supply)[k] == records[k]
  {
    var texts := Utils.TableTexts(ExportTable(records));
    CsvRecordsSpec(texts, supply, k);
    assert texts[k + 1] == Utils.RowTexts(ExportRow(records[k]));
    HeaderTexts();
    RowRoundTrip(records[k], supply(k));
  }

  // ---- the preview and the commit ----

  /** The closure state of the import panel: `previewRecords`, the preview
      text and whether the commit button is disabled. */
  class Importer {
    var preview: seq<Record>
    var previewText: string
    var commitDisabled: bool

    ghost predicate Valid()
      reads this
    {
      App.AllCanonical(preview)
    }

    constructor()
      ensures Valid() && preview == [] && previewText == "" && commitDisabled
    {
      preview := [];
      previewText := "";
      commitDisabled := true;
    }

    /** `parseFile()`: with no file selected, or a JSON file that is
        rejected, nothing changes; otherwise the file's records become the
        preview and the commit button is enabled exactly when there are
        some. */
    method Preview(file: Option<(string, string)>, parsed: Option<Value>, supply: nat -> Env)
      requires Valid() && forall k: nat :: ValidEnv(supply(k))
      modifies this
      ensures Valid()
      ensures file.None? || Imported(file.value.0, file.value.1, parsed, supply).None? ==>
        preview == old(preview) && previewText == old(previewText) && commitDisabled == old(commitDisabled)
      ensures file.Some? && Imported(file.value.0, file.value.1, parsed, supply).Some? ==>
        && preview == Imported(file.value.0, file.value.1, parsed, supply).value
        && previewText == ReadyText(|preview|)
        && (commitDisabled <==> preview == [])
    {
      if file.None? {
        return;
      }
      var (name, text) := file.value;
      var next: seq<Record>;
      if EndsWith(name, ".json") {
        if parsed.None? || !DataHelpers.ValidateJsonRecords(parsed.value) {
          return;
        }
        next := JsonRecords(parsed.value, supply);
      } else {
        var rows := Utils.CsvParse(text);
        next := CsvRecords(rows, supply);
      }
      ImportedCanonical(name, text, parsed, supply);
      preview := next;
      previewText := ReadyText(|next|);
      commitDisabled := next == [];
    }

    /** The commit button: an empty preview does nothing; `"replace"`
        replaces the records with the preview, any other mode merges it in
        front of the records it does not supersede; the preview is then
        cleared. */
    method Commit(mode: string, app: App.AppState)
      requires Valid() && app.Valid()
      modifies this, app
      ensures Valid() && app.Valid() && app.filters == old(app.filters)
      ensures old(preview) == [] ==>
        && preview == old(preview) && previewText == old(previewText) && commitDisabled == old(commitDisabled)
        && app.records == old(app.records) && app.selectedId == old(app.selectedId)
      ensures old(preview) != [] && mode == "replace" ==> app.records == old(preview)
      ensures old(preview) != [] && mode != "replace" ==> app.records == App.Merged(old(preview), old(app.records))
      ensures old(preview) != [] ==> app.selectedId == App.KeptSelection(app.records, old(app.selectedId))
      ensures old(preview) != [] ==> preview == [] && previewText == "" && commitDisabled
    {
      if preview == [] {
        return;
      }
      if mode == "replace" {
        var envs := seq(|preview|, _ => Env("id", "now", "now"));
        App.NormalizeAllFixes(preview, envs);
        var thrown := app.Replace(App.ToValues(preview), envs);
      } else {
        app.Merge(preview);
      }
      preview := [];
      previewText := "";
      commitDisabled := true;
    }
  }
}
