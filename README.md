# static-app-lab record manager: a Dafny model

This project models the record-keeping core of *static-app-lab*, an offline
single-page app for keeping notes ("records") in the browser. Each record has
eight fields: `id`, `title`, `body`, `tags`, `status` (active or archived),
`rating`, `createdAt` and `updatedAt`. The model covers:

- **JavaScript values** (`JsValue`): undefined, null, booleans, numbers,
  strings, arrays and plain objects as ordered property lists. It defines
  property access (which throws on `null`/`undefined`), assignment, object
  spread, truthiness, `||`, `??`, `===`, `String(v)` and `Number(s)`.
  Property lists keep the `Object.keys` order: keys that are array
  indices (`"0"`, `"1"`, …) come first in ascending value, the other keys
  follow in the order they were created. Assigning a new index key inserts
  it at its place among the indices.
- **Text** (`Text`): `trim`, `toLowerCase`, `includes`, `split` and `join`,
  plus the decimal form of integers.
- **Shared list operations** (`Seqs`, `Sorting`):
  - `filter`, `flatMap`, and the insertion-ordered contents of a `Set`;
  - one stable sort, used at every sort site, over a comparator assumed to
    be a total preorder.
- **The record model** (`Model`):
  - `createRecord` (defaults, then overrides);
  - `normalizeRecord`, the repair of an arbitrary value into a canonical
    record;
  - `validateRecord`.
- **CSV helpers** (`DataHelpers`, `Utils`):
  - the single-line parser `parseCsvLine` and the table parser `parseCsv`;
  - cell escaping and `toCsv`;
  - the general parser `csvParse` (quoted newlines, doubled quotes,
    carriage returns ignored) and `csvStringify`;
  - `uniqueTags`.
- **The application state** (`App`, class `AppState`):
  - the record list, the selection and the filters;
  - `applyFilters` (search, status, tag, minimum rating, then one of six
    sort orders);
  - `setRecords`, upsert with `createdAt` kept and `updatedAt` stamped, and
    select, duplicate, archive-toggle, delete, filter-change, replace,
    merge, generate and clear.
- **The virtual list** (`VirtualList`, class `ListView`): the window of rows
  to render for a scroll position, the spacer and offset, the active-row
  mark, the count text and the large-list indicator.
- **The data viewer** (`DataViewer`, class `Viewer`): rows loaded from a
  file, the collected columns, column toggles, a filter and a two-way
  header sort, and JSON or CSV export of the visible view.
- **Import and export** (`ImportExport`, class `Importer`):
  - CSV export of records;
  - the parsing of a chosen JSON or CSV file into a preview of normalized
    records;
  - commit by replace or merge.
- **The dashboard** (`Dashboard`): active and archived counts, the ten most
  used tags, the rating histogram and the ten most recently updated records.
- **The savings calculator** (`Calculator`): monthly compounding with
  monthly contributions, year by year, over exact reals.

## How the model is built

- **Throwing.** Operations that can throw a `TypeError` in the source
  return an `Outcome` (`Ok(value)` or `Throws`). One example is reading a
  property of `null`.
- **Injected values.** The clock and the `uuid()` generator are passed
  in:
  - each normalization takes an `Env` holding the fresh id and the two
    "now" timestamps it would draw;
  - batches take one `Env` per record.
- **Collation.** `localeCompare` is a parameter `le` that is required to be
  a total preorder.
- **Imperative code stays imperative.** A loop in the source is a `method`
  with a `while` loop, proved against a function. The app state, the list
  view, the viewer and the importer are classes whose methods state their
  whole new state.

Where the repository's tests disagree with the code, the model follows the
code:

- `tests/data_helpers.test.js:14-18` expects `toCsv` of one row to be that
  row's escaped line alone. The code (`src/data_helpers.js:57-63`) puts the
  header line before the body lines, so `DataHelpers.ToCsv` does too:
  `DataHelpers.ToCsvOneRow` states the header, line feed, row shape, and
  `DataHelpers.ToCsvWritesHeader` shows that on the test's row the result
  starts with `name,city` and a line feed, and differs from the text the
  test expects.
- `tests/data_helpers.test.js:5-12` expects `parseCsv` to keep a quoted
  newline inside one field. The code splits the text into lines before
  parsing quotes, so the model splits first as well.

## Model

| member | source | states |
|---|---|---|
| JsValue.Member | src/model.js:55 | Reading a property throws exactly when the base is `null` or `undefined` |
| JsValue.Lookup | src/model.js:49 | A key the object does not have reads as `undefined` |
| JsValue.LookupFirst | src/model.js:49 | A property list read at a key gives the first entry with that key |
| JsValue.StrictEquals | app.js:93 | `===` holds only between equal values, and between equal values exactly when they are not `NaN` |
| JsValue.Slot | src/data_helpers.js:43 | A new index key's place follows the index keys of no greater value and precedes the first key it comes before; a non-index key goes last |
| JsValue.Put | src/data_viewer.js:250 | Assignment adds one entry exactly when the key is new |
| JsValue.PutMember | src/data_viewer.js:250 | After `o[k] = v` the keys are the old keys and `k` |
| JsValue.PutKeys | src/data_viewer.js:250 | Assigning `o[k] = v` keeps the key order when `k` exists and otherwise inserts `k` at its slot |
| JsValue.InsertOrdered | src/data_helpers.js:43 | Inserting a new key at its slot keeps index keys first and ascending |
| JsValue.PutOrdered | src/data_viewer.js:250 | Assignment keeps a property list in `Object.keys` order |
| JsValue.PutNamedKeys | src/data_viewer.js:250 | The non-index keys after an assignment are the old ones in order, then `k` when it is a new non-index key |
| JsValue.PutKeyOrder | src/data_helpers.js:42-44 | Assigning a new key to an object whose keys are in `Object.keys` order for its creation history gives that order for the history extended by `k` |
| JsValue.KeyOrderPlain | src/data_helpers.js:42-44 | When no created key is an array index, the key order is the creation order |
| JsValue.PutLookup | src/data_viewer.js:250 | After `o[k] = v`, `k` reads `v` and every other key reads as before |
| JsValue.Spread | src/model.js:49 | The keys of `{...base, ...over}` are those of `base` and of `over` |
| JsValue.SpreadKeys | src/model.js:49 | Spreading keeps `Object.keys` order and keeps the base's non-index keys as a prefix of the result's |
| JsValue.SpreadLookup | src/model.js:49 | In `{...base, ...over}` a key reads from `over` when `over` has it and from `base` otherwise |
| JsValue.SpreadPairLookup | app.js:94-98 | Spreading two further properties over a record: the later one wins, then the earlier one, then the base |
| JsValue.SpreadDistinctLookup | src/model.js:49 | With distinct override keys, each override's own value is what the spread object holds at that key |
| JsValue.NumberStringRoundTrip | src/model.js:65 | `Number(String(n))` gives back `n` for every modelled number |
| JsValue.IntStringRoundTrip | src/model.js:65 | Every integer's decimal text parses back to that integer |
| JsValue.NaNStringRoundTrip | src/model.js:65 | `Number("NaN")` is `NaN` |
| JsValue.StrOrEmpty | src/model.js:56-57 | `String(s \|\| "")` is `s` for every string `s` |
| Text.TrimStart | src/model.js:62 | The result is a suffix, starts with no whitespace, and only whitespace was removed |
| Text.TrimEnd | src/model.js:62 | The result is a prefix, ends with no whitespace, and only whitespace was removed |
| Text.TrimSpec | src/model.js:62 | `trim` gives a contiguous slice of the input with no whitespace at either end |
| Text.TrimIdempotent | src/model.js:62 | Trimming twice is trimming once |
| Text.BlankIffTrimsEmpty | src/data_helpers.js:36 | A line trims to `""` exactly when it is all whitespace |
| Text.TrimKeeps | src/model.js:62 | A text with a character that is not whitespace does not trim to `""` |
| Text.Lower | app.js:33 | Lowercasing keeps the length and maps each character independently |
| Text.Split | src/model.js:60 | `split` always gives at least one piece |
| Text.SplitJoin | src/model.js:60 | Splitting a join on a separator no piece contains gives back the pieces |
| Text.NatToString | src/list.js:98 | The count text is a non-empty digit string with no leading zero |
| Text.DigitsOfNatToString | src/list.js:98 | The count text reads back as the count |
| Seqs.Filter | app.js:34-49 | A filter never lengthens a list |
| Seqs.FilterMember | app.js:34-49 | An element is kept exactly when it is in the list and passes the test |
| Seqs.FilterCount | app.js:34-49 | Each passing element is kept as often as it occurs, and no other element is kept |
| Seqs.AddedOnce | src/utils.js:150-156 | A `Set` holds each added value exactly once, and nothing that was not added |
| Seqs.AddedInFirstOrder | src/data_viewer.js:91-96 | A `Set` lists its values in the order they first occur |
| Seqs.AddedDistinct | src/utils.js:150-156 | A `Set` lists no value twice |
| Seqs.FlatMapMember | src/utils.js:151-154 | A value is in a `flatMap` exactly when some element gives it |
| Seqs.AddEach | src/utils.js:152-154 | Adding items one by one to a set yields the set of all values added so far |
| Sorting.SortPermutation | app.js:51 | Sorting is a permutation |
| Sorting.SortSorted | app.js:51 | Sorting with a total preorder gives a list ordered by it |
| Sorting.SortStable | app.js:51 | Sorting keeps the input order of each class of equal-ranking elements |
| Model.CreateRecordFields | src/model.js:38-51 | Each key of `createRecord(o)` reads from `o` when `o` has it and from the defaults otherwise |
| Model.CreateRecord | src/model.js:38-51 | `createRecord` gives an object, and with no overrides it is exactly the defaults |
| Model.CreateRecordKeys | src/model.js:38-51 | The keys are in `Object.keys` order, and their non-index keys begin with the eight default fields in declared order |
| Model.CreatedStamps | src/model.js:40-47 | Without overrides of `id`, `createdAt` and `updatedAt`, they are the drawn id and the one timestamp |
| Model.CreatedOverride | src/model.js:49 | With distinct override keys, every override reaches the record unchanged |
| Model.CreatedDefault | src/model.js:40-48 | A default field not overridden keeps its default value |
| Model.NonEmpty | src/model.js:59 | `filter(Boolean)` on strings keeps only non-empty strings drawn from the input |
| Model.NonEmptyIsFilter | src/model.js:59 | `filter(Boolean)` on strings is the list filter with the non-empty test: every non-empty string is kept, in order, as often as it occurs, and the empty ones are dropped |
| Model.NormalizeFields | src/model.js:54-68 | With a valid id source and clock, `id`, `createdAt` and `updatedAt` are truthy; the status is archived exactly for the string `"archived"` |
| Model.NormalizeRecord | src/model.js:53-70 | Normalizing throws exactly when the raw value is `null` or `undefined` |
| Model.NormalizeIsCreate | src/model.js:54-68 | A record that already has all eight fields is its own `createRecord` result |
| Model.ToValueFields | src/model.js:38-51 | A record object reads back each of its eight fields |
| Model.NormalizeReadsFields | src/model.js:53-70 | Normalization depends only on the eight fields it reads |
| Model.NormalizeTagsClean | src/model.js:58-63 | Normalized tags are all non-empty and trimmed, from an array or from comma-separated text |
| Model.TagPieces | src/model.js:58-63 | The pieces a `tags` value yields, an array's elements made strings or the comma-separated pieces of its text, are all trimmed |
| Model.NormalizeTagsKeeps | src/model.js:58-63 | Normalizing keeps exactly the non-empty trimmed pieces, in their order and with their repeats, and nothing else |
| Model.NormalizeCanonical | src/model.js:53-70 | Normalizing any non-null value gives a canonical record |
| Model.NormalizeFixesCanonical | src/model.js:53-70 | A canonical record normalizes to itself |
| Model.NormalizeIdempotent | src/model.js:53-70 | Normalizing a normalized record changes nothing, whatever id and clock it is given |
| Model.NormalizeStatus | src/model.js:64 | The status is archived exactly when the raw status is the string `"archived"` |
| Model.StatusNameRead | src/model.js:64 | A status name is `"archived"` exactly for the archived status |
| Model.NormalizeFallbacks | src/model.js:55-67 | `id`, `createdAt` and `updatedAt` are kept when truthy, otherwise drawn from the id source and the clock |
| Model.ValidateRecord | src/model.js:72-77 | Validating `null` or `undefined` throws |
| Model.ValidateRecordSpec | src/model.js:72-77 | On a record, validation says "Title is required." exactly when the title is blank, and otherwise passes |
| Model.ValidateStringTitle | src/model.js:72-77 | A string title fails validation exactly when it is empty or only whitespace |
| DataHelpers.ValidateJsonRecordsExamples | src/data_helpers.js:4-5 | An array of objects is accepted; a `null` element or a non-array is refused |
| DataHelpers.ParseCsvLine | src/data_helpers.js:9-33 | The character loop computes the line's fields as the field-scanning function defines them |
| DataHelpers.FieldCount | src/data_helpers.js:9-33 | A line has one more field than it has commas outside quotes |
| DataHelpers.QuoteFreeLineSplits | src/data_helpers.js:24-31 | A line without quotes splits exactly at its commas |
| DataHelpers.ScanQuotedBody | src/data_helpers.js:15-23 | Inside quotes, a doubled quote yields one quote and a lone quote closes the field |
| DataHelpers.EscapeCsv | src/data_helpers.js:49-55 | A cell needing no quotes is written as its text; one with a quote, comma or line feed is wrapped in quotes |
| DataHelpers.EscapeCsvRoundTrip | src/data_helpers.js:49-55 | Parsing one escaped cell gives back that cell's text |
| DataHelpers.LineRoundTrip | src/data_helpers.js:9-33 | Parsing a line of escaped, comma-joined fields gives back the fields |
| DataHelpers.SplitLines | src/data_helpers.js:36 | `split(/\r?\n/)` gives one line per newline-separated piece |
| DataHelpers.SplitLinesOfJoin | src/data_helpers.js:36 | Splitting lines joined by `\n` gives back the lines |
| DataHelpers.NonBlank | src/data_helpers.js:36 | Only lines that are not blank are kept |
| DataHelpers.NonBlankIsFilter | src/data_helpers.js:36 | Dropping blank lines is the list filter with the not-blank test: every line that is not blank is kept, in order, as often as it occurs, and no blank line is |
| Text.TrimEach | src/data_helpers.js:38 | Trimming each header keeps their number |
| DataHelpers.ParseCsv | src/data_helpers.js:35-47 | No non-blank line gives no rows; otherwise one row per non-blank line after the header |
| DataHelpers.ParseJoinedLines | src/data_helpers.js:35-47 | Each body line becomes an object keyed by the trimmed header fields |
| DataHelpers.RowObjectSpec | src/data_helpers.js:39-46 | A row object has exactly the header keys, in `Object.keys` order (header order when no header is an index), and a header with no value reads `""` |
| DataHelpers.IndexHeaderFirst | src/data_helpers.js:39-46 | A header that is an array index is listed before the others: headers `b,1` give keys `1, b` |
| DataHelpers.RowTexts | src/data_helpers.js:58-60 | A row gives one cell text per column |
| DataHelpers.BodyLines | src/data_helpers.js:57-63 | Building the rows throws exactly when a row is `null` or `undefined` and there is a column to read |
| DataHelpers.BodyLinesRows | src/data_helpers.js:59-61 | Each body line is that row's escaped, comma-joined cells |
| DataHelpers.ToCsv | src/data_helpers.js:57-63 | `toCsv` throws exactly when it must read a column of a `null` row; its text starts with the header line, which is all of it without rows |
| DataHelpers.ToCsvOneRow | src/data_helpers.js:57-63 | One row gives the header line, a line feed and the row's line |
| DataHelpers.ToCsvWritesHeader | tests/data_helpers.test.js:14-18 | On the escaping test's row the text starts with the header line `name,city` and a line feed, so it is not the expected row line |
| DataHelpers.ParseToCsv | src/data_helpers.js:35-63 | Parsing the CSV text gives one object per row, from the row's cell texts |
| DataHelpers.TableRoundTrip | src/data_helpers.js:35-63 | `parseCsv(toCsv(rows, columns))` has the same rows, keyed by the columns in `Object.keys` order (the columns themselves when none is an index), each cell the original value's text |
| Utils.CsvStringify | src/utils.js:47-57 | No rows give `""`; one row gives that row's escaped, comma-joined line |
| Utils.Scan | src/utils.js:66-115 | Scanning keeps the rows already ended and ends at least one more |
| Utils.CsvParse | src/utils.js:59-119 | The character loop computes the rows the scanning function defines, and none is a single empty cell |
| Utils.DropEmptyRows | src/utils.js:118 | No row made of one empty cell is kept, and the result is no longer than the input |
| Utils.DropEmptyRowsIsFilter | src/utils.js:118 | The row filter keeps every row other than a single empty cell, a row with no cells included, in order and as often as it occurs, and drops every `[""]` |
| Utils.ScanQuotedBody | src/utils.js:68-82 | Inside quotes, a doubled quote yields one quote and a lone quote closes the field |
| Utils.ScanComma | src/utils.js:90-95 | A comma outside quotes ends the current cell |
| Utils.ScanPlainText | src/utils.js:84-113 | Quote-free text splits into rows at newlines and into cells at commas, ignoring carriage returns |
| Utils.QuoteFreeText | src/utils.js:59-119 | Parsing quote-free text gives its plain rows and cells, minus empty rows |
| Utils.RemoveCR | src/utils.js:106-109 | Removing carriage returns leaves none |
| Utils.CarriageReturnsIgnored | src/utils.js:106-109 | For quote-free text, deleting every carriage return does not change the result |
| Utils.CsvRoundTrip | src/utils.js:47-119 | `csvParse(csvStringify(rows))` gives each row's cell texts back |
| Utils.UniqueTags | src/utils.js:150-156 | The method computes the sorted set of all tags |
| Utils.UniqueTagsSpec | src/utils.js:150-156 | The result is sorted, holds each used tag exactly once and no other, and is empty for no records |
| App.Patched | app.js:148-151 | Fields the patch leaves out keep their old values; an empty patch changes nothing |
| App.Matches | app.js:34-49 | With no search, status or tag filter only the rating bound decides; the default filters pass every record not rated below 0 |
| App.SortOrder | app.js:51-67 | Every sort key, including unknown ones, orders records by a total preorder |
| App.ApplyFilters | app.js:32-70 | The view is no longer than the records; an unknown sort key sorts by title, ascending |
| App.ApplyFiltersMembers | app.js:34-49 | A record is in the view, as often as in the list, exactly when it matches every filter |
| App.ApplyFiltersSorted | app.js:51-67 | The view is ordered by the chosen sort |
| App.ApplyFiltersStable | app.js:51-67 | Records that tie under the sort keep their list order |
| App.Find | app.js:93 | `find` gives the first record with `===`-equal id, and nothing exactly when no record has it |
| App.NormalizeAll | app.js:84 | Normalizing a batch throws exactly when some element is `null` or `undefined`; otherwise one record per element |
| App.NormalizeAllCanonical | app.js:84 | Every record loaded by `setRecords` is canonical |
| App.NormalizeAllFixes | app.js:84 | Loading canonical records again changes none of them |
| App.KeptSelection | app.js:85-87 | The selection is cleared exactly when it is set and no record has that id |
| App.SavedInputFields | app.js:94-98 | The saved object keeps every field except `updatedAt`, set to now, and `createdAt`, taken from the stored copy |
| App.SavedRecord | app.js:92-98 | The saved record's `updatedAt` is now, and its `id` and `createdAt` are truthy |
| App.SavedRecordSpec | app.js:92-98 | An update keeps the stored `createdAt`; a new record keeps its own or gets now; `updatedAt` is now |
| App.SavedRecordContent | app.js:94-98 | The saved record's content fields are those of the normalized input |
| App.UpsertList | app.js:100-104 | An update keeps the length and a new record is prepended; every entry is the saved record or an old one |
| App.ReplaceById | app.js:101-102 | An update replaces the records with that id and leaves the others in place |
| App.UpsertFinds | app.js:100-104 | After an upsert, looking up the id finds the saved record |
| App.UpsertOthersUnchanged | app.js:100-104 | An upsert leaves every record with another id, and their order, unchanged |
| App.ToggleInputIs | app.js:133-135 | The toggle input is the record with its status flipped |
| App.ToggleSaves | app.js:131-137 | Toggling saves the record with its status flipped and `updatedAt` set to now, and nothing else changed |
| App.DuplicateFields | app.js:121-127 | The copy has the new id and timestamp, the title with " (copy)", and the original's body, tags, status and rating |
| App.DuplicateSaved | app.js:118-130 | With an unused new id, the saved copy is exactly the original's content under the new id and timestamps |
| App.Merged | app.js:171 | The merge starts with the incoming records and adds at most the stored ones |
| App.MergedSpec | app.js:171 | Merge puts the incoming records first and keeps only stored records whose id is not incoming |
| App.DeleteSpec | app.js:141 | After delete no record has the id, and every other record remains |
| App.AppState.constructor | app.js:19-30 | The initial state: no records, no selection and the default filters |
| App.AppState.SetRecords | app.js:83-89 | Records become the normalized batch and the selection is kept only if still present; a throw changes nothing |
| App.AppState.SetNormalized | app.js:83-89 | Setting already-normalized records keeps the selection only if it is still present |
| App.AppState.Upsert | app.js:91-106 | The list becomes the upserted list, the saved record is selected, and a `null` record throws without change |
| App.AppState.Select | app.js:109-112 | Selecting changes only the selected id |
| App.AppState.FilterChange | app.js:148-151 | Only the filters change, by the patch |
| App.AppState.Delete | app.js:138-143 | The records with that id are removed and the selection kept only if still present |
| App.AppState.ArchiveToggle | app.js:131-137 | The found record is replaced by its toggled, restamped copy and selected; an unknown id changes nothing |
| App.AppState.Duplicate | app.js:118-130 | The copy is prepended and selected; an unknown id changes nothing |
| App.AppState.Merge | app.js:169-173 | Records become the merge of the incoming and stored records |
| App.AppState.Replace | app.js:164-168 | Records become the normalized incoming batch |
| App.AppState.Generate | app.js:194-197 | The generated records are normalized and put before the existing ones |
| App.AppState.Clear | app.js:179-184 | Records become empty and a set selection is cleared |
| VirtualList.CeilDiv | src/list.js:76 | `Math.ceil(a / b)` is the least `r` with `b * r >= a` |
| VirtualList.EndIndex | src/list.js:74-77 | The end of the window never passes the number of records |
| VirtualList.WindowOrdered | src/list.js:73-77 | Within the list's height, the window's start is not after its end |
| VirtualList.WindowCovers | src/list.js:73-77 | Every row that overlaps the viewport is inside the rendered window |
| VirtualList.WindowSize | src/list.js:73-77 | The window holds at most one viewport of rows plus one, plus the buffer on each side |
| VirtualList.WindowExample | src/list.js:73-77 | At scroll offset 720 with a 600-pixel viewport, rows 4 to 25 are rendered |
| VirtualList.Slice | src/list.js:79 | `slice(start, end)` is the sub-list between them, or empty when end is not after start |
| VirtualList.MarkRows | src/list.js:83-96 | Each rendered row is marked active exactly when its id is the selected one |
| VirtualList.ListView.constructor | src/list.js:31-32 | The list starts with no records, no selection and nothing rendered |
| VirtualList.ListView.RenderList | src/list.js:69-100 | The spacer height, offset, rendered rows with active marks, count text and indicator all follow from records and scroll |
| VirtualList.ListView.Update | src/list.js:124-145 | New records and selection, a redrawn list with the count text showing the number of records, the detail, and the tag options rebuilt only when their count changes |
| DataViewer.RowKeys | src/data_viewer.js:93 | `null` and `undefined` rows have no keys; any other row has its own keys |
| DataViewer.CellString | src/data_viewer.js:108 | A column the row lacks reads `""`; a string cell reads as itself |
| DataViewer.RowOrderPreorder | src/data_viewer.js:111-118 | A column sort orders rows by a total preorder, in either direction |
| DataViewer.ViewRows | src/data_viewer.js:103-120 | An empty filter and no sort show the rows unchanged; the view never grows |
| DataViewer.ViewRowsFilter | src/data_viewer.js:104-110 | A row is shown, as often as it occurs, exactly when some visible column contains the filter text |
| DataViewer.ViewRowsSorted | src/data_viewer.js:111-118 | A sorted view is ordered by the column and keeps the order of ties |
| DataViewer.Clicked | src/data_viewer.js:174-182 | Clicking a header sorts by it, flipping the direction if it was already the key, else ascending |
| DataViewer.ClickTwice | src/data_viewer.js:174-182 | Two clicks on a new column leave it descending; on the key, they restore the direction |
| DataViewer.Project | src/data_viewer.js:248-252 | Projecting onto no columns gives `{}`; projection throws exactly on a `null` row with columns |
| DataViewer.ProjectSpec | src/data_viewer.js:248-252 | A projected row has exactly the visible columns, in `Object.keys` order (the columns themselves when none is an index), each with the row's value |
| DataViewer.ProjectAll | src/data_viewer.js:247-253 | Projecting all rows keeps their number |
| DataViewer.ProjectRows | src/data_viewer.js:247-253 | The loop computes the projection of every row |
| DataViewer.ProjectAllThrows | src/data_viewer.js:247-253 | One row that throws makes the whole export throw |
| DataViewer.ProjectAllSpec | src/data_viewer.js:247-253 | Each exported row is the projection of the row at its position |
| DataViewer.CollectColumns | src/data_viewer.js:91-96 | The loop collects the set of all row keys |
| DataViewer.ColumnsSpec | src/data_viewer.js:91-96 | Each key present in some row is a column once, listed in first-seen order |
| DataViewer.Viewer.constructor | src/data_viewer.js:81-87 | The viewer starts empty, unsorted, with an empty filter |
| DataViewer.Viewer.SetRows | src/data_viewer.js:89-101 | New rows, their columns all visible, and the sort reset |
| DataViewer.Viewer.ToggleColumn | src/data_viewer.js:130-137 | Checking adds the column if absent; unchecking removes it; nothing else changes |
| DataViewer.Viewer.SetFilter | src/data_viewer.js:240-243 | Only the filter text changes |
| DataViewer.Viewer.ClickHeader | src/data_viewer.js:174-182 | Only the sort changes, as a click defines |
| DataViewer.Viewer.HandleFile | src/data_viewer.js:199-216 | No file changes nothing; a file sets the rows it yields, with all columns visible and no sort |
| DataViewer.Viewer.ExportJson | src/data_viewer.js:245-256 | The export is the current view projected onto the visible columns |
| DataViewer.Viewer.ExportCsv | src/data_viewer.js:258-263 | The export is `toCsv` of the current view and visible columns |
| ImportExport.HeaderRow | src/import_export.js:28-37 | The CSV header is the eight field names in order |
| ImportExport.ExportRow | src/import_export.js:40-49 | Each record's row has one cell per header column |
| ImportExport.BuildExport | src/import_export.js:38-50 | The loop builds exactly that table |
| ImportExport.IndexOf | src/import_export.js:73 | `indexOf` gives the first position of the name, or -1 exactly when absent |
| ImportExport.RawRecordField | src/import_export.js:74-83 | Each field of the raw record is the cell under the header of that name |
| ImportExport.CsvRecords | src/import_export.js:71-85 | One record per body row |
| ImportExport.CsvRecordsSpec | src/import_export.js:71-85 | Each imported record is its raw row normalized |
| ImportExport.JsonRecords | src/import_export.js:63-69 | A valid JSON import has one record per array element |
| ImportExport.ImportedCanonical | src/import_export.js:56-89 | Every imported record is canonical |
| ImportExport.ReadRow | src/import_export.js:74-83 | A record read from an exported row has truthy `id`, `createdAt` and `updatedAt` |
| ImportExport.TagsRoundTrip | src/model.js:58-63 | Tags joined with commas and read back give the same tags |
| ImportExport.RowRoundTrip | src/import_export.js:38-50 | An exported row read back under the header normalizes to the original record |
| ImportExport.ExportParses | src/import_export.js:51 | Parsing the exported CSV text gives back the table's cell texts |
| ImportExport.ExportImportRoundTrip | src/import_export.js:27-85 | Importing the exported CSV gives back exactly the exported records |
| ImportExport.Importer.constructor | src/import_export.js:19 | The importer starts with an empty preview and commit disabled |
| ImportExport.Importer.Preview | src/import_export.js:56-89 | A parsed file becomes the preview with its count text, and commit is enabled exactly when it is not empty |
| ImportExport.Importer.Commit | src/import_export.js:93-107 | Replace or merge the preview into the app, then clear the preview; with no preview nothing changes |
| Dashboard.ActiveCount | src/dashboard.js:4-6 | The active count is at most the total |
| Dashboard.ArchivedCount | src/dashboard.js:4-6 | Total minus active is the number of archived records |
| Dashboard.TallyKeys | src/dashboard.js:11-16 | The tally lists each tag once, in first-use order |
| Dashboard.TallyCount | src/dashboard.js:11-16 | Each tag's count is its number of uses over all records |
| Dashboard.CountTags | src/dashboard.js:11-16 | The nested loops compute the tally of all tags |
| Dashboard.BumpEach | src/dashboard.js:13-15 | Counting one record's tags extends the tally by those tags |
| Dashboard.ByCountDescPreorder | src/dashboard.js:18 | Ordering by count, highest first, is a total preorder |
| Dashboard.Take | src/dashboard.js:19 | `slice(0, n)` is a prefix of at most `n` entries: the whole list when it is short, and exactly its first `n` entries otherwise |
| Dashboard.TopTags | src/dashboard.js:17-19 | One entry per used tag when ten or fewer are used, otherwise ten |
| Dashboard.TopTagsSorted | src/dashboard.js:18 | The entries' counts never rise, and there are none without records |
| Dashboard.TopTagsEntries | src/dashboard.js:11-19 | Each entry is a used tag with its exact count; with ten or fewer tags each used tag is listed once |
| Dashboard.TopTagsSpec | src/dashboard.js:17-19 | At most ten entries, counts falling, each count exact, and every tag listed once when there are ten or fewer |
| Dashboard.TopTagsComplete | src/dashboard.js:17-19 | A used tag left out means ten tags are listed, each used at least as often |
| Dashboard.TopTagsStable | src/dashboard.js:18 | Tags with equal counts stay in first-use order |
| Dashboard.HistogramSum | src/dashboard.js:31-39 | The buckets add up to at most the total, and to exactly the total when every rating is 0 to 5 |
| Dashboard.Recent | src/dashboard.js:41-43 | At most ten records, each one of the records |
| Dashboard.RecentComplete | src/dashboard.js:41-43 | A record left out means ten are listed, each updated no earlier than it |
| Dashboard.RecentSpec | src/dashboard.js:41-43 | At most ten records, newest first, drawn from the records, and all of them when there are ten or fewer |
| Dashboard.Summary | src/dashboard.js:4-6 | Active and archived add up to the total |
| Calculator.CalculateSavingsGrowth | src/calculator_math.js:1-40 | One entry per year; final balance, contributions and interest are those after `12 * years` months |
| Calculator.GrowYear | src/calculator_math.js:16-25 | Twelve months advance balance and totals; the year contributes `12 * monthly` and its own interest |
| Calculator.MonthAdvance | src/calculator_math.js:19-24 | One month of the loop moves the running totals to the next month's values |
| Calculator.BalanceGrows | src/calculator_math.js:16-25 | With non-negative inputs the balance never falls below the initial amount and the interest is never negative |
| Calculator.ContributedIs | src/calculator_math.js:10-25 | Contributions after `m` months are `initial + m * monthly` |
| Calculator.BalanceIsContributionsPlusInterest | src/calculator_math.js:9-25 | The balance is always the contributions plus the interest |
| Calculator.YearlyInterestTotal | src/calculator_math.js:26-37 | The yearly interest entries add up to the total interest |
| Calculator.ZeroRate | src/calculator_math.js:8-25 | At a zero rate nothing is earned, and the balance is what was paid in |
| Calculator.ZeroMonthly | src/calculator_math.js:8-25 | Without contributions the balance grows by `(1 + rate)` each month |
| Calculator.CompoundOnly | tests/calculator_math.test.js:5-16 | Without contributions the interest is the compound growth minus the initial amount |
| Calculator.NoInterestExample | tests/calculator_math.test.js:18-29 | Two years of 100 a month at no interest give 2400 with no interest |
| Calculator.NoInterestFromZero | tests/calculator_math.test.js:18-29 | From zero at no interest, the balance is the months times the contribution |
| Calculator.InterestOnlyExample | tests/calculator_math.test.js:5-16 | 1000 at 12% a year for one year grows to `1000 * 1.01^12` |

## Left out

- Text.Lower: lowercases ASCII letters only, because full Unicode case mapping needs tables outside this model. `trim` uses the ECMAScript whitespace set but no other Unicode rules. No normalization is modelled.
- Numbers: `JsValue.Number` is an integer or `NaN`. Fractional ratings, infinities and the rest of the `Number()` grammar (hex, octal and binary literals, exponent forms, decimal points, `Infinity`) are not modelled. Surrounding whitespace is trimmed and a sign is read, as in JavaScript.
- `localeCompare` is an abstract comparator. It is only required to be a total preorder, not a particular collation.
- App.SortOrder, Dashboard.Recent: the date sorts of `applyFilters` and the dashboard's recent list compare `String(createdAt)` and `String(updatedAt)`. The source calls `localeCompare` on the raw value (app.js:53-60, src/dashboard.js:42), which throws a `TypeError` when the value is not a string; the model never throws there. Every normalized record holds strings in both fields unless a truthy non-string was loaded, so only such records differ.
- JsValue.StrictEquals: on strings, numbers, booleans, `null` and `undefined` it is JavaScript's `===`. Arrays and objects are compared by content, whereas JavaScript compares them by reference, because values in the model have no identity. Ids compared by the app are strings or numbers in every record the app produces.
- JsValue.Member: reads own properties only. Inherited properties (such as a `__proto__` or `constructor` header read through `DataHelpers.RowObject` or `DataViewer.CellString`), getters and prototype setters are not modelled, because values in the model have no prototype.
- `JSON.parse`, `JSON.stringify` and `serializeJson` are not modelled. Parsed JSON reaches the model as an already-parsed value (`Option<Value>`), and the JSON export is the list of values before stringifying.
- I/O is not modelled: DOM rendering, toasts, downloads, `FileReader`, the IndexedDB layer (`src/db.js`), the service worker and `async` ordering. Each operation is modelled from the point where its data is in memory, and the state it writes is modelled up to the point where it would be persisted.
- `renderDetail` builds markup only. `ListView.Update` records which record the detail panel shows rather than its text.
- The dashboard's text and bar rendering are not modelled; only the computed figures are.
- Scroll position and viewport height are whole pixels (`nat`). Fractional scroll offsets are not modelled.
- Calculator: floating-point rounding is not modelled; the model is over exact reals. `years` is an integer. For a fractional `years` the source's loop bound `year <= safeYears` (src/calculator_math.js:15) runs `floor(max(1, years))` years; that case is not modelled.
- `generateSampleRecords` (random sample content) is not modelled. `AppState.Generate` takes the generated values as a parameter.
- onReset, onEdit, onNew and the editor's autosave are not modelled. They are UI flows over the operations modelled here (`Upsert`, `Replace`); `src/editor.js` is not part of this model.
- `src/media_lab.js`, `src/calculator_lab.js`, `src/offline_lab.js`, `src/ui.js`, `src/settings.js`, `pwa/sw.js` and `eslint.config.js` are not part of this model. They are UI and platform code outside the record core.
- The helpers in `src/utils.js` other than `csvStringify`, `csvParse` and `uniqueTags` are not modelled (formatting, debounce, DOM helpers).
- `App.AppState.Merge` takes records that are already normalized, which is what the importer's preview holds; every call site in the source passes it such a list.
- `ValidEnv`: the model assumes that generated ids and timestamps are non-empty strings, as `uuid()` and `nowIso()` always return.
- `ImportExport.Importer.Preview`: the "no file selected" toast is not modelled; that case changes no state.
- The tag filter's option list starts empty in `ListView`, because the first update always rebuilds it.
- `Model.Status` is an enumeration. The source stores any string there, but every normalized record holds "active" or "archived".
- DataHelpers.ToCsv: follows `src/data_helpers.js:57-63`, which writes the header line first. The escaping test in `tests/data_helpers.test.js:14-18` expects the row line alone; the model does not adopt that expectation.
- Calculator.CalculateSavingsGrowth: takes all four inputs as parameters. The source's destructuring defaults (`initial = 0`, `monthly = 0`, `annualRate = 0`, `years = 1`, src/calculator_math.js:2-5) are not modelled; a caller gets them by passing those values.
- Calculator.Balance, Calculator.Interest: carry no postconditions of their own; their properties are the lemmas beside them (`BalanceGrows`, `BalanceIsContributionsPlusInterest`, `ZeroRate`, `ZeroMonthly`, `CompoundOnly`).
- Dashboard.Tally: carries no postcondition of its own; `TallyKeys` and `TallyCount` state what it computes.
