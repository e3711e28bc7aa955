/** src/data_viewer.js: a table preview of a CSV or JSON file, with column
    toggles, a text filter, a sortable header and exports of the current
    view. Its CSV helpers are the ones of src/data_helpers.js, line for line,
    and are modelled once, in module DataHelpers. */
module DataViewer {
  import opened Text
  import opened JsValue
  import opened Sorting
  import opened Seqs
  import DataHelpers

  datatype Dir = Asc | Desc

  /** `state.sort`; a key of `None` is `null`. */
  datatype SortState = SortState(key: Option<string>, dir: Dir)

  const Unsorted := SortState(None, Asc)

  /** `if (!state.sort.key)`: no key, or the empty column name, leaves the
      rows unsorted. */
  predicate SortActive(sort: SortState)
  {
    sort.key.Some? && sort.key.value != ""
  }

  /** `Object.keys(row || {})`: a falsy row other than null or undefined
      has no own keys anyway, so only those two are replaced by `{}`. */
  function RowKeys(row: Value): (r: seq<string>)
    ensures Nullish(row) ==> r == []
    ensures !Nullish(row) ==> r == Keys(row)
  {
    if Truthy(row) then Keys(row) else []
  }

  /** `String(row[column] ?? "")` for a row that is not null or undefined. */
  function CellString(row: Value, column: string): (r: string)
    ensures column !in Keys(row) ==> r == ""
    ensures Lookup(OwnProps(row), column).Str? ==> r == Lookup(OwnProps(row), column).s
  {
    ToStr(Coalesce(Lookup(OwnProps(row), column), Str("")))
  }

  /** The filter callback once the filter text is not blank: some visible
      column's text contains the needle. */
  predicate Shows(row: Value, visible: seq<string>, needle: string)
  {
    exists j :: 0 <= j < |visible| && Contains(Lower(CellString(row, visible[j])), needle)
  }

  function Shown(visible: seq<string>, needle: string): Value -> bool
  {
    (row: Value) => needle == "" || Shows(row, visible, needle)
  }

  /** The comparator of `getViewRows`: the cells of the sort column as
      strings, compared by `cmp` (the numeric, accent-insensitive
      `localeCompare`), its arguments swapped when descending. */
  function RowOrder(sort: SortState, cmp: (string, string) -> bool): (Value, Value) -> bool
    requires SortActive(sort)
  {
    var byKey := ByKey(cmp, (row: Value) => CellString(row, sort.key.value));
    if sort.dir == Asc then byKey else Flip(byKey)
  }

  lemma {:induction false} RowOrderPreorder(sort: SortState, cmp: (string, string) -> bool)
    requires SortActive(sort) && TotalPreorder(cmp)
    ensures TotalPreorder(RowOrder(sort, cmp))
  {
    var key := (row: Value) => CellString(row, sort.key.value);
    ByKeyPreorder(cmp, key);
    FlipPreorder(ByKey(cmp, key));
  }

  /** `getViewRows()`. Reading a column of a null or undefined row throws:
      in the filter, as soon as the filter text is not blank and some column
      is visible; in the sort, whenever there are two rows or more to order
      and one of them is nullish. A null row meets the comparator; an
      undefined one would be moved to the end without it, but rows read
      from JSON or CSV are never undefined, and the model lets it throw
      too. */
  function ViewRows(rows: seq<Value>, visible: seq<string>, filter: string, sort: SortState,
                    cmp: (string, string) -> bool): (r: Outcome<seq<Value>>)
    ensures Lower(Trim(filter)) == "" && !SortActive(sort) ==> r == Ok(rows)
    ensures r.Ok? ==> |r.value| <= |rows|
  {
    var needle := Lower(Trim(filter));
    if needle != "" && visible != [] && exists k :: 0 <= k < |rows| && Nullish(rows[k]) then Throws
    else
      var filtered := Filter(rows, Shown(visible, needle));
      if !SortActive(sort) then
        if needle == "" then FilterAll(rows, Shown(visible, needle)); Ok(filtered) else Ok(filtered)
      else if |filtered| >= 2 && exists k :: 0 <= k < |filtered| && Nullish(filtered[k]) then Throws
      else
        SortPermutation(filtered, RowOrder(sort, cmp));
        assert |multiset(Sort(filtered, RowOrder(sort, cmp)))| == |filtered|;
        Ok(Sort(filtered, RowOrder(sort, cmp)))
  }

  /** With a filter that is not blank a row is kept, as often as it occurs,
      exactly when some visible column's lowercased text contains the
      lowercased, trimmed filter; with no visible column nothing is. Rows are
      not reordered unless a sort key is set. */
  lemma {:induction false} ViewRowsFilter(rows: seq<Value>, visible: seq<string>, filter: string, sort: SortState,
                       cmp: (string, string) -> bool, x: Value)
    requires ViewRows(rows, visible, filter, sort, cmp).Ok?
    ensures var needle, view := Lower(Trim(filter)), ViewRows(rows, visible, filter, sort, cmp).value;
      && multiset(view)[x] == (if needle == "" || Shows(x, visible, needle) then multiset(rows)[x] else 0)
      && (needle != "" && visible == [] ==> view == [])
      && (!SortActive(sort) ==> view == Filter(rows, Shown(visible, Lower(Trim(filter)))))
  {
    var needle := Lower(Trim(filter));
    var filtered := Filter(rows, Shown(visible, needle));
    FilterCount(rows, Shown(visible, needle), x);
    if SortActive(sort) {
      SortPermutation(filtered, RowOrder(sort, cmp));
    }
    if needle != "" && visible == [] {
      if filtered != [] {
        var y := filtered[0];
        FilterMember(rows, Shown(visible, needle), y);
      }
    }
  }

  /** When sorting, the view is ordered by the sort column: non-decreasing
      under the comparator in ascending mode, with its arguments swapped in
      descending mode; equal cells keep their order. */
  lemma {:induction false} ViewRowsSorted(rows: seq<Value>, visible: seq<string>, filter: string, sort: SortState,
                       cmp: (string, string) -> bool, x: Value)
    requires TotalPreorder(cmp) && SortActive(sort)
    requires ViewRows(rows, visible, filter, sort, cmp).Ok?
    ensures SortedBy(ViewRows(rows, visible, filter, sort, cmp).value, RowOrder(sort, cmp))
    ensures EquivalentTo(ViewRows(rows, visible, filter, sort, cmp).value, x, RowOrder(sort, cmp))
         == EquivalentTo(Filter(rows, Shown(visible, Lower(Trim(filter)))), x, RowOrder(sort, cmp))
  {
    var filtered := Filter(rows, Shown(visible, Lower(Trim(filter))));
    RowOrderPreorder(sort, cmp);
    SortSorted(filtered, RowOrder(sort, cmp));
    SortStable(filtered, x, RowOrder(sort, cmp));
  }

  /** A click on a column header: the active column flips direction, any
      other becomes the key, ascending. */
  function Clicked(sort: SortState, column: string): (r: SortState)
    ensures r.key == Some(column)
    ensures sort.key == Some(column) ==> r.dir != sort.dir
    ensures sort.key != Some(column) ==> r.dir == Asc
  {
    if sort.key == Some(column) then SortState(sort.key, if sort.dir == Asc then Desc else Asc)
    else SortState(Some(column), Asc)
  }

  /** Two clicks on the same header restore the direction. */
  lemma {:induction false} ClickTwice(sort: SortState, column: string)
    ensures Clicked(Clicked(sort, column), column).dir == (if sort.key == Some(column) then sort.dir else Desc)
  {
  }

  /** The JSON export of one row: the visible columns, in order, each with
      the row's value (undefined when missing); `{}` when no column is
      visible. Reading a column of null or undefined throws. */
  function Project(row: Value, visible: seq<string>): (r: Outcome<Value>)
    ensures visible == [] ==> r == Ok(Obj([]))
    ensures r.Throws? <==> visible != [] && Nullish(row)
  {
    if visible == [] then Ok(Obj([]))
    else if Nullish(row) then Throws
    else Ok(Obj(ProjectProps(row, visible, [])))
  }

  /** The `reduce` of the JSON export: `acc[column] = row[column]` for each
      column in turn. */
  function ProjectProps(row: Value, columns: seq<string>, acc: seq<(string, Value)>): seq<(string, Value)>
    decreases |columns|
  {
    if columns == [] then acc
    else ProjectProps(row, columns[1..], Put(acc, columns[0], Lookup(OwnProps(row), columns[0])))
  }

  lemma {:induction false} ProjectPropsLookup(row: Value, columns: seq<string>, acc: seq<(string, Value)>, k: string)
    ensures Lookup(ProjectProps(row, columns, acc), k)
         == if k in columns then Lookup(OwnProps(row), k) else Lookup(acc, k)
    decreases |columns|
  {
    if columns != [] {
      ProjectPropsLookup(row, columns[1..], Put(acc, columns[0], Lookup(OwnProps(row), columns[0])), k);
      PutLookup(acc, columns[0], Lookup(OwnProps(row), columns[0]), k);
      assert k in columns <==> k == columns[0] || k in columns[1..];
    }
  }

  /** The reduce creates the columns, none twice, after the names `done`
      already in the accumulator. */
  lemma {:induction false} ProjectPropsKeys(row: Value, columns: seq<string>, acc: seq<(string, Value)>, done: seq<string>)
    requires Distinct(done + columns)
    requires KeyOrderOf(PropKeys(acc), done)
    ensures KeyOrderOf(PropKeys(ProjectProps(row, columns, acc)), done + columns)
    decreases |columns|
  {
    if columns == [] {
      assert done + columns == done;
    } else {
      var c, v, rest := columns[0], Lookup(OwnProps(row), columns[0]), columns[1..];
      assert done + columns == (done + [c]) + rest;
      DistinctNext(done, columns);
      PutKeyOrder(acc, c, v, done);
      ProjectPropsKeys(row, rest, Put(acc, c, v), done + [c]);
    }
  }

  /** In a list without repeats, the next column is not among those before it. */
  lemma {:induction false} DistinctNext<T>(done: seq<T>, columns: seq<T>)
    requires Distinct(done + columns) && columns != []
    ensures columns[0] !in done
  {
    assert (done + columns)[|done|] == columns[0];
    forall i | 0 <= i < |done| ensures done[i] != columns[0] {
      assert (done + columns)[i] == done[i];
    }
  }

  /** The exported object has exactly the visible columns as keys, in
      `Object.keys` order (the visible columns themselves when none is an
      array index), and each holds the row's value. */
  lemma {:induction false} ProjectSpec(row: Value, visible: seq<string>, k: string)
    requires !Nullish(row)
    requires Distinct(visible)
    ensures KeyOrderOf(Keys(Project(row, visible).value), visible)
    ensures (forall j :: 0 <= j < |visible| ==> IsNamedKey(visible[j])) ==> Keys(Project(row, visible).value) == visible
    ensures k in visible ==> Member(Project(row, visible).value, k) == Member(row, k)
  {
    if visible != [] {
      assert [] + visible == visible;
      ProjectPropsKeys(row, visible, [], []);
      ProjectPropsLookup(row, visible, [], k);
      if forall j :: 0 <= j < |visible| ==> IsNamedKey(visible[j]) {
        KeyOrderPlain(Keys(Project(row, visible).value), visible);
      }
    }
  }

  /** The rows of a file: a `.json` file that parses to an array gives its
      elements, one that does not parse (`parsed == None`) or is not an
      array gives none; a `.csv` file is read by `parseCsv`; any other name
      gives none. `JSON.parse` is not modelled: `parsed` is its result. */
  function FileRows(name: string, text: string, parsed: Option<Value>): (r: seq<Value>)
    ensures EndsWith(name, ".json") && !(parsed.Some? && parsed.value.Arr?) ==> r == []
    ensures !EndsWith(name, ".json") && !EndsWith(name, ".csv") ==> r == []
  {
    if EndsWith(name, ".json") then
      (if parsed.Some? && parsed.value.Arr? then parsed.value.elems else [])
    else if EndsWith(name, ".csv") then DataHelpers.ParseCsv(text)
    else []
  }

  /** The column set of `setRows`: `rows.reduce` adding the keys of every
      row to a `Set`. */
  method CollectColumns(rows: seq<Value>) returns (seen: seq<string>)
    ensures seen == Added(FlatMap(rows, RowKeys))
  {
    seen := [];
    var i := 0;
    while i < |rows|
      invariant 0 <= i <= |rows|
      invariant seen == Added(FlatMap(rows[..i], RowKeys))
    {
      seen := AddEach(seen, FlatMap(rows[..i], RowKeys), RowKeys(rows[i]));
      FlatMapSnoc(rows, i, RowKeys);
      i := i + 1;
    }
    assert rows[..i] == rows;
  }

  /** The columns are the keys found in the rows, each listed once, in
      the order in which the rows first use them. */
  lemma {:induction false} ColumnsSpec(rows: seq<Value>, c: string, i: int, j: int)
    ensures multiset(Added(FlatMap(rows, RowKeys)))[c]
         == if exists k :: 0 <= k < |rows| && c in RowKeys(rows[k]) then 1 else 0
    ensures var keys, columns := FlatMap(rows, RowKeys), Added(FlatMap(rows, RowKeys));
      0 <= i < j < |columns| ==>
        columns[i] in keys && columns[j] in keys && FirstIndex(keys, columns[i]) < FirstIndex(keys, columns[j])
  {
    AddedOnce(FlatMap(rows, RowKeys), c);
    FlatMapMember(rows, RowKeys, c);
    if 0 <= i < j < |Added(FlatMap(rows, RowKeys))| {
      AddedInFirstOrder(FlatMap(rows, RowKeys), i, j);
    }
  }

  /** The state of the viewer. */
  class Viewer {
    var rows: seq<Value>
    var columns: seq<string>
    /** `state.visibleColumns`, a set, in its insertion order. */
    var visibleColumns: seq<string>
    var sort: SortState
    var filter: string

    /** The column lists hold each column once, as the sets they model. */
    ghost predicate Valid()
      reads this
    {
      Distinct(columns) && Distinct(visibleColumns)
    }

    constructor()
      ensures Valid()
      ensures rows == [] && columns == [] && visibleColumns == [] && sort == Unsorted && filter == ""
    {
      rows := [];
      columns := [];
      visibleColumns := [];
      sort := Unsorted;
      filter := "";
    }

    /** `getViewRows()`, given the comparator. */
    function View(cmp: (string, string) -> bool): Outcome<seq<Value>>
      reads this
    {
      ViewRows(rows, visibleColumns, filter, sort, cmp)
    }

    /** `setRows(rows)`: the columns are the keys of all rows, each once, in
        order of first appearance; all are made visible and the sort is
        reset. */
    method SetRows(next: seq<Value>)
      modifies this
      ensures Valid()
      ensures rows == next && columns == Added(FlatMap(next, RowKeys)) && visibleColumns == columns
      ensures sort == Unsorted && filter == old(filter)
    {
      rows := next;
      var seen := CollectColumns(next);
      AddedDistinct(FlatMap(next, RowKeys));
      columns := seen;
      visibleColumns := seen;
      sort := Unsorted;
    }

    /** A column checkbox: checking adds the column to the visible set,
        unchecking deletes it. */
    method ToggleColumn(column: string, checked: bool)
      modifies this
      requires Valid()
      ensures Valid()
      ensures checked ==> visibleColumns == if column in old(visibleColumns) then old(visibleColumns) else old(visibleColumns) + [column]
      ensures !checked ==> visibleColumns == Filter(old(visibleColumns), (c: string) => c != column)
      ensures rows == old(rows) && columns == old(columns) && sort == old(sort) && filter == old(filter)
    {
      if checked {
        if column !in visibleColumns {
          visibleColumns := visibleColumns + [column];
        }
      } else {
        FilterDistinct(visibleColumns, (c: string) => c != column);
        visibleColumns := Filter(visibleColumns, (c: string) => c != column);
      }
    }

    /** The filter box. */
    method SetFilter(text: string)
      modifies this
      ensures filter == text
      ensures rows == old(rows) && columns == old(columns) && visibleColumns == old(visibleColumns) && sort == old(sort)
    {
      filter := text;
    }

    /** A click on a column header. */
    method ClickHeader(column: string)
      modifies this
      ensures sort == Clicked(old(sort), column)
      ensures rows == old(rows) && columns == old(columns) && visibleColumns == old(visibleColumns) && filter == old(filter)
    {
      if sort.key == Some(column) {
        sort := SortState(sort.key, if sort.dir == Asc then Desc else Asc);
      } else {
        sort := SortState(Some(column), Asc);
      }
    }

    /** `handleFile(file)`: no file changes nothing; otherwise the rows of
        the file replace the table. */
    method HandleFile(file: Option<(string, string)>, parsed: Option<Value>)
      requires Valid()
      modifies this
      ensures Valid()
      ensures file.None? ==> rows == old(rows) && columns == old(columns) && visibleColumns == old(visibleColumns) && sort == old(sort)
      ensures file.Some? ==> rows == FileRows(file.value.0, file.value.1, parsed)
      ensures file.Some? ==> columns == Added(FlatMap(rows, RowKeys)) && visibleColumns == columns && sort == Unsorted
      ensures filter == old(filter)
    {
      if file.None? {
        return;
      }
      SetRows(FileRows(file.value.0, file.value.1, parsed));
    }

    /** The JSON export: each view row projected onto the visible columns.
        Serialization by `JSON.stringify` is not modelled. */
    method ExportJson(cmp: (string, string) -> bool) returns (data: Outcome<seq<Value>>)
      ensures View(cmp).Throws? ==> data.Throws?
      ensures View(cmp).Ok? ==> data == ProjectAll(View(cmp).value, visibleColumns)
    {
      var view := View(cmp);
      if view.Throws? {
        return Throws;
      }
      data := ProjectRows(view.value, visibleColumns);
    }

    /** The CSV export: `toCsv` of the view with the visible columns. */
    method ExportCsv(cmp: (string, string) -> bool) returns (csv: Outcome<string>)
      ensures View(cmp).Throws? ==> csv.Throws?
      ensures View(cmp).Ok? ==> csv == DataHelpers.ToCsv(View(cmp).value, visibleColumns)
    {
      var view := View(cmp);
      if view.Throws? {
        return Throws;
      }
      csv := DataHelpers.ToCsv(view.value, visibleColumns);
    }
  }

  /** `rows.map((row) => project(row))`, throwing at the first row that
      throws. */
  function ProjectAll(rows: seq<Value>, visible: seq<string>): (r: Outcome<seq<Value>>)
    ensures r.Ok? ==> |r.value| == |rows|
  {
    if rows == [] then Ok([])
    else match (ProjectAll(rows[..|rows| - 1], visible), Project(rows[|rows| - 1], visible))
      case (Ok(init), Ok(last)) => Ok(init + [last])
      case _ => Throws
  }

  /** `rows.map((row) => { ... })` of the JSON export: each row projected
      onto the visible columns; the first row that throws ends the export. */
  method ProjectRows(rows: seq<Value>, visible: seq<string>) returns (data: Outcome<seq<Value>>)
    ensures data == ProjectAll(rows, visible)
  {
    var out: seq<Value> := [];
    var k := 0;
    while k < |rows|
      invariant 0 <= k <= |rows|
      invariant ProjectAll(rows[..k], visible) == Ok(out)
    {
      var projected := Project(rows[k], visible);
      ProjectAllSnoc(rows[..k], rows[k], visible);
      assert rows[..k + 1] == rows[..k] + [rows[k]];
      if projected.Throws? {
        ProjectAllThrows(rows, k, visible);
        return Throws;
      }
      out := out + [projected.value];
      k := k + 1;
    }
    assert rows[..k] == rows;
    return Ok(out);
  }

  lemma {:induction false} ProjectAllSnoc(rows: seq<Value>, row: Value, visible: seq<string>)
    ensures ProjectAll(rows + [row], visible)
         == match (ProjectAll(rows, visible), Project(row, visible))
            case (Ok(init), Ok(last)) => Ok(init + [last])
            case _ => Throws
  {
    assert (rows + [row])[..|rows|] == rows;
  }

  lemma {:induction false} ProjectAllThrows(rows: seq<Value>, k: int, visible: seq<string>)
    requires 0 <= k < |rows| && Project(rows[k], visible).Throws?
    ensures ProjectAll(rows, visible).Throws?
  {
    if k < |rows| - 1 {
      assert rows[..|rows| - 1][k] == rows[k];
      ProjectAllThrows(rows[..|rows| - 1], k, visible);
    }
  }

  /** Each exported row is the projection of the view row at the same
      place. */
  lemma {:induction false} ProjectAllSpec(rows: seq<Value>, visible: seq<string>)
    requires ProjectAll(rows, visible).Ok?
    ensures forall k :: 0 <= k < |rows| ==> Project(rows[k], visible) == Ok(ProjectAll(rows, visible).value[k])
  {
    forall k | 0 <= k < |rows| ensures Project(rows[k], visible) == Ok(ProjectAll(rows, visible).value[k]) {
      ProjectAllAt(rows, visible, k);
    }
  }

  lemma {:induction false} ProjectAllAt(rows: seq<Value>, visible: seq<string>, k: int)
    requires ProjectAll(rows, visible).Ok? && 0 <= k < |rows|
    ensures Project(rows[k], visible) == Ok(ProjectAll(rows, visible).value[k])
    decreases |rows|
  {
    var init := rows[..|rows| - 1];
    ProjectAllLast(rows, visible);
    if k < |init| {
      ProjectAllAt(init, visible, k);
      assert rows[k] == init[k];
    }
  }

  /** A successful projection of a non-empty list is that of all rows but
      the last, followed by the last row projected. */
  lemma {:induction false} ProjectAllLast(rows: seq<Value>, visible: seq<string>)
    requires ProjectAll(rows, visible).Ok? && rows != []
    ensures ProjectAll(rows[..|rows| - 1], visible).Ok? && Project(rows[|rows| - 1], visible).Ok?
    ensures ProjectAll(rows, visible).value
         == ProjectAll(rows[..|rows| - 1], visible).value + [Project(rows[|rows| - 1], visible).value]
  {
  }
}
