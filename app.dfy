/** app.js: the in-memory record collection behind the record manager, its
    filtered and sorted view, and the handlers that update it. Storage writes
    (src/db.js) and the list, dashboard and settings refreshes that follow
    every update are not part of this model. */
module App {
  import opened Text
  import opened JsValue
  import opened Sorting
  import opened Seqs
  import opened Model

  // ---- applyFilters ----

  /** `state.filters`. The rating bound is an integer: the list view sets it
      from a numeric select. */
  datatype Filters = Filters(search: string, status: string, tag: string, rating: int, sort: string)

  const DefaultFilters := Filters("", "all", "", 0, "updated-desc")

  /** The partial filter object `onFilterChange` receives: a field that is
      `None` is absent. */
  datatype FilterPatch = FilterPatch(
    search: Option<string>, status: Option<string>, tag: Option<string>,
    rating: Option<int>, sort: Option<string>)

  function Pick<T>(given: Option<T>, current: T): T
  {
    if given.Some? then given.value else current
  }

  /** `{ ...filters, ...patch }`: each field of the patch wins, every other
      field keeps its value. */
  function Patched(f: Filters, p: FilterPatch): (r: Filters)
    ensures p.search.None? ==> r.search == f.search
    ensures p.status.None? ==> r.status == f.status
    ensures p.tag.None? ==> r.tag == f.tag
    ensures p.rating.None? ==> r.rating == f.rating
    ensures p.sort.None? ==> r.sort == f.sort
    ensures p == FilterPatch(None, None, None, None, None) ==> r == f
  {
    Filters(Pick(p.search, f.search), Pick(p.status, f.status), Pick(p.tag, f.tag),
            Pick(p.rating, f.rating), Pick(p.sort, f.sort))
  }

  /** `record.rating < bound`; NaN compares false, so a NaN rating passes
      every rating filter. */
  predicate Below(n: Number, bound: int)
  {
    n.Int? && n.i < bound
  }

  /** The needle of the text search: the search box trimmed and lowercased. */
  function Needle(f: Filters): string
  {
    Lower(Trim(f.search))
  }

  /** The four conditions of the filter callback of `applyFilters`. With an
      empty search, status "all" and no tag only the rating bound filters,
      so the default filters let every record through except those rated
      below 0. */
  function Matches(r: Record, f: Filters): (m: bool)
    ensures f.search == "" && f.status == "all" && f.tag == "" ==> (m <==> !Below(r.rating, f.rating))
    ensures f == DefaultFilters ==> (m <==> !(r.rating.Int? && r.rating.i < 0))
  {
    && (f.status == "all" || StatusName(r.status) == f.status)
    && (f.tag == "" || f.tag in r.tags)
    && !Below(r.rating, f.rating)
    && (Needle(f) == "" || Contains(Lower(r.title + " " + r.body), Needle(f)))
  }

  function Matcher(f: Filters): Record -> bool
  {
    (r: Record) => Matches(r, f)
  }

  function TitleKey(r: Record): string { r.title }

  /** `updatedAt` and `createdAt` are compared as strings. */
  function UpdatedKey(r: Record): string { ToStr(r.updatedAt) }

  function CreatedKey(r: Record): string { ToStr(r.createdAt) }

  const KnownSorts: seq<string> := ["updated-asc", "updated-desc", "created-asc", "created-desc", "title-desc", "title-asc"]

  /** The comparator of `applyFilters` for a sort name, given the string
      comparator `le` (`localeCompare`); an unknown name sorts by title,
      ascending. Every one of them, the fallback included, is a total
      preorder when `le` is one. */
  function SortOrder(sort: string, le: (string, string) -> bool): (r: (Record, Record) -> bool)
    ensures TotalPreorder(le) ==> TotalPreorder(r)
  {
    ByKeyPreorder(le, UpdatedKey);
    ByKeyPreorder(le, CreatedKey);
    ByKeyPreorder(le, TitleKey);
    FlipPreorder(ByKey(le, UpdatedKey));
    FlipPreorder(ByKey(le, CreatedKey));
    FlipPreorder(ByKey(le, TitleKey));
    if sort == "updated-asc" then ByKey(le, UpdatedKey)
    else if sort == "updated-desc" then Flip(ByKey(le, UpdatedKey))
    else if sort == "created-asc" then ByKey(le, CreatedKey)
    else if sort == "created-desc" then Flip(ByKey(le, CreatedKey))
    else if sort == "title-desc" then Flip(ByKey(le, TitleKey))
    else ByKey(le, TitleKey)
  }

  /** `applyFilters()`: the matching records, then a stable sort of that
      copy. An unknown sort name gives the title-ascending order. */
  function ApplyFilters(records: seq<Record>, f: Filters, le: (string, string) -> bool): (r: seq<Record>)
    ensures |r| <= |records|
    ensures f.sort !in KnownSorts ==> r == Sort(Filter(records, Matcher(f)), SortOrder("title-asc", le))
  {
    SortPermutation(Filter(records, Matcher(f)), SortOrder(f.sort, le));
    assert |multiset(Sort(Filter(records, Matcher(f)), SortOrder(f.sort, le)))| == |Filter(records, Matcher(f))|;
    Sort(Filter(records, Matcher(f)), SortOrder(f.sort, le))
  }

  /** Every record returned matches, and every matching record is returned
      as often as it occurs: the result is a permutation of the matching
      subsequence. */
  lemma {:induction false} ApplyFiltersMembers(records: seq<Record>, f: Filters, le: (string, string) -> bool, x: Record)
    ensures multiset(ApplyFilters(records, f, le))[x] == if Matches(x, f) then multiset(records)[x] else 0
    ensures x in ApplyFilters(records, f, le) <==> x in records && Matches(x, f)
  {
    SortPermutation(Filter(records, Matcher(f)), SortOrder(f.sort, le));
    FilterCount(records, Matcher(f), x);
  }

  /** The result is ordered by the selected comparator. */
  lemma {:induction false} ApplyFiltersSorted(records: seq<Record>, f: Filters, le: (string, string) -> bool)
    requires TotalPreorder(le)
    ensures SortedBy(ApplyFilters(records, f, le), SortOrder(f.sort, le))
  {
    SortSorted(Filter(records, Matcher(f)), SortOrder(f.sort, le));
  }

  /** Records the comparator cannot tell apart keep their order in
      `state.records`. */
  lemma {:induction false} ApplyFiltersStable(records: seq<Record>, f: Filters, le: (string, string) -> bool, x: Record)
    requires TotalPreorder(le)
    ensures EquivalentTo(ApplyFilters(records, f, le), x, SortOrder(f.sort, le))
         == EquivalentTo(Filter(records, Matcher(f)), x, SortOrder(f.sort, le))
  {
    SortStable(Filter(records, Matcher(f)), x, SortOrder(f.sort, le));
  }

  // ---- the record list ----

  /** `records.find((r) => r.id === id)`: the first record with that id. */
  function Find(records: seq<Record>, id: Value): (r: Option<Record>)
    ensures r.Some? ==> r.value in records && StrictEquals(r.value.id, id)
    ensures r.Some? ==>
      exists k :: 0 <= k < |records| && records[k] == r.value && forall j :: 0 <= j < k ==> !StrictEquals(records[j].id, id)
    ensures r.None? <==> forall k :: 0 <= k < |records| ==> !StrictEquals(records[k].id, id)
  {
    if records == [] then None
    else if StrictEquals(records[0].id, id) then Some(records[0])
    else
      var r := Find(records[1..], id);
      assert forall k :: 1 <= k < |records| ==> records[k] == records[1..][k - 1];
      if r.None? then r
      else
        var k :| 0 <= k < |records| - 1 && records[1..][k] == r.value &&
          forall j :: 0 <= j < k ==> !StrictEquals(records[1..][j].id, id);
        assert records[k + 1] == r.value;
        r
  }

  /** `(r) => r.id !== id` */
  function NotId(id: Value): Record -> bool
  {
    (r: Record) => !StrictEquals(r.id, id)
  }

  function ToValues(records: seq<Record>): (r: seq<Value>)
    ensures |r| == |records| && forall k :: 0 <= k < |records| ==> r[k] == ToValue(records[k])
  {
    seq(|records|, k requires 0 <= k < |records| => ToValue(records[k]))
  }

  predicate AnyNullish(raws: seq<Value>)
  {
    exists k :: 0 <= k < |raws| && Nullish(raws[k])
  }

  lemma {:induction false} AnyNullishAppend(a: seq<Value>, b: seq<Value>)
    ensures AnyNullish(a + b) <==> AnyNullish(a) || AnyNullish(b)
  {
    if AnyNullish(a) {
      var k :| 0 <= k < |a| && Nullish(a[k]);
      assert (a + b)[k] == a[k];
    }
    if AnyNullish(b) {
      var k :| 0 <= k < |b| && Nullish(b[k]);
      assert (a + b)[|a| + k] == b[k];
    }
    if AnyNullish(a + b) {
      var k :| 0 <= k < |a + b| && Nullish((a + b)[k]);
      if k < |a| {
        assert (a + b)[k] == a[k];
      } else {
        assert (a + b)[k] == b[k - |a|];
      }
    }
  }

  /** `raws.map(normalizeRecord)`, where the k-th call sees the k-th
      environment; it throws at the first null or undefined element. */
  function NormalizeAll(raws: seq<Value>, envs: seq<Env>): (r: Outcome<seq<Record>>)
    requires |envs| == |raws|
    ensures r.Throws? <==> AnyNullish(raws)
    ensures r.Ok? ==> |r.value| == |raws|
  {
    if AnyNullish(raws) then Throws
    else Ok(seq(|raws|, k requires 0 <= k < |raws| => NormalizeRecord(raws[k], envs[k]).value))
  }

  /** The `k`-th record of a successful `map(normalizeRecord)` is the
      `k`-th raw record normalised. */
  lemma {:induction false} NormalizeAllAt(raws: seq<Value>, envs: seq<Env>, k: int)
    requires |envs| == |raws| && NormalizeAll(raws, envs).Ok? && 0 <= k < |raws|
    ensures NormalizeAll(raws, envs).value[k] == NormalizeRecord(raws[k], envs[k]).value
  {
  }

  predicate AllCanonical(records: seq<Record>)
  {
    forall k :: 0 <= k < |records| ==> Canonical(records[k])
  }

  predicate ValidEnvs(envs: seq<Env>)
  {
    forall k :: 0 <= k < |envs| ==> ValidEnv(envs[k])
  }

  /** Every record of a successful `map(normalizeRecord)` is canonical. */
  lemma {:induction false} NormalizeAllCanonical(raws: seq<Value>, envs: seq<Env>)
    requires |envs| == |raws| && ValidEnvs(envs) && NormalizeAll(raws, envs).Ok?
    ensures AllCanonical(NormalizeAll(raws, envs).value)
  {
    forall k | 0 <= k < |raws| ensures Canonical(NormalizeAll(raws, envs).value[k]) {
      NormalizeCanonical(raws[k], envs[k]);
    }
  }

  /** Normalizing records that are already canonical gives them back. */
  lemma {:induction false} NormalizeAllFixes(records: seq<Record>, envs: seq<Env>)
    requires |envs| == |records| && AllCanonical(records)
    ensures NormalizeAll(ToValues(records), envs) == Ok(records)
  {
    var raws := ToValues(records);
    forall k | 0 <= k < |records| ensures NormalizeRecord(raws[k], envs[k]) == Ok(records[k]) {
      NormalizeFixesCanonical(records[k], envs[k]);
    }
    assert !AnyNullish(raws);
    var normalized := NormalizeAll(raws, envs).value;
    assert forall k :: 0 <= k < |raws| ==> normalized[k] == NormalizeRecord(raws[k], envs[k]).value;
    assert normalized == records;
  }

  /** The selection after `setRecords`: a truthy id that no longer names a
      record is cleared to null. */
  function KeptSelection(records: seq<Record>, selectedId: Value): (r: Value)
    ensures r == selectedId || r == Null
    ensures r != selectedId <==> Truthy(selectedId) && forall k :: 0 <= k < |records| ==> !StrictEquals(records[k].id, selectedId)
  {
    if Truthy(selectedId) && Find(records, selectedId).None? then Null else selectedId
  }

  /** `existing?.createdAt || record.createdAt || now` */
  function KeptCreatedAt(records: seq<Record>, record: Value, now: string): Value
  {
    var existing := Find(records, Field(record, "id"));
    Or(Or(if existing.Some? then existing.value.createdAt else Undefined, Field(record, "createdAt")), Str(now))
  }

  /** `{ ...record, createdAt: ..., updatedAt: now }` */
  function SavedInput(records: seq<Record>, record: Value, now: string): Value
  {
    Stamped(record, KeptCreatedAt(records, record, now), now)
  }

  /** `{ ...record, createdAt, updatedAt: now }` */
  function Stamped(record: Value, createdAt: Value, now: string): Value
  {
    Obj(Spread(OwnProps(record), [("createdAt", createdAt), ("updatedAt", Str(now))]))
  }

  /** The two timestamps are replaced and every other field is kept. */
  lemma {:induction false} StampedFields(record: Value, createdAt: Value, now: string)
    ensures forall k :: k != "createdAt" && k != "updatedAt" ==> Field(Stamped(record, createdAt, now), k) == Field(record, k)
    ensures Field(Stamped(record, createdAt, now), "updatedAt") == Str(now)
    ensures Field(Stamped(record, createdAt, now), "createdAt") == createdAt
  {
    forall k | k != "createdAt" && k != "updatedAt" ensures Field(Stamped(record, createdAt, now), k) == Field(record, k) {
      StampedKeep(record, createdAt, now, k);
    }
    SpreadPairLookup(OwnProps(record), "createdAt", createdAt, "updatedAt", Str(now), "updatedAt");
    SpreadPairLookup(OwnProps(record), "createdAt", createdAt, "updatedAt", Str(now), "createdAt");
  }

  /** The record `upsertLocalRecord(record)` saves at time `now`: the input
      with `createdAt` taken from the stored record with that id, else from
      the input, else `now`, and `updatedAt` set to `now`, normalized. */
  function SavedRecord(records: seq<Record>, record: Value, now: string, env: Env): (r: Record)
    ensures now != "" ==> r.updatedAt == Str(now)
    ensures ValidEnv(env) ==> Truthy(r.id) && Truthy(r.createdAt)
  {
    var a := SavedInput(records, record, now);
    SpreadPairLookup(OwnProps(record), "createdAt", KeptCreatedAt(records, record, now), "updatedAt", Str(now), "updatedAt");
    assert Field(a, "updatedAt") == Str(now);
    NormalizeRecord(a, env).value
  }

  /** The spread replaces the two timestamps and keeps every other field. */
  lemma {:induction false} SavedInputFields(records: seq<Record>, record: Value, now: string)
    ensures forall k :: k != "createdAt" && k != "updatedAt" ==> Field(SavedInput(records, record, now), k) == Field(record, k)
    ensures Field(SavedInput(records, record, now), "updatedAt") == Str(now)
    ensures Field(SavedInput(records, record, now), "createdAt") == KeptCreatedAt(records, record, now)
  {
    StampedFields(record, KeptCreatedAt(records, record, now), now);
  }

  /** The saved record keeps the stored record's `createdAt` when one with
      the same id exists, takes the input's or `now` otherwise, is stamped
      `updatedAt = now`, and in every other field is the input
      normalized. */
  lemma {:induction false} SavedRecordSpec(records: seq<Record>, record: Value, now: string, env: Env)
    requires !Nullish(record) && AllCanonical(records) && now != ""
    ensures var r, existing := SavedRecord(records, record, now, env), Find(records, Field(record, "id"));
      && r.updatedAt == Str(now)
      && (existing.Some? ==> r.createdAt == existing.value.createdAt)
      && (existing.None? ==> r.createdAt == Or(Field(record, "createdAt"), Str(now)))
  {
    SavedInputFields(records, record, now);
    KeptCreatedAtIs(records, record, now);
    NormalizedStamps(SavedInput(records, record, now), env);
  }

  /** The kept `createdAt` is never empty: the stored record's when one
      has the id, else the input's when truthy, else `now`. */
  lemma {:induction false} KeptCreatedAtIs(records: seq<Record>, record: Value, now: string)
    requires AllCanonical(records) && now != ""
    ensures var c, existing := KeptCreatedAt(records, record, now), Find(records, Field(record, "id"));
      && Truthy(c)
      && (existing.Some? ==> c == existing.value.createdAt)
      && (existing.None? ==> c == Or(Field(record, "createdAt"), Str(now)))
  {
    var existing := Find(records, Field(record, "id"));
    if existing.Some? {
      CanonicalMember(records, existing.value);
    }
  }

  /** Truthy timestamps pass through `normalizeRecord` unchanged. */
  lemma {:induction false} NormalizedStamps(a: Value, env: Env)
    requires !Nullish(a) && Truthy(Field(a, "createdAt")) && Truthy(Field(a, "updatedAt"))
    ensures NormalizeRecord(a, env).value.createdAt == Field(a, "createdAt")
    ensures NormalizeRecord(a, env).value.updatedAt == Field(a, "updatedAt")
  {
  }

  lemma {:induction false} SavedRecordContent(records: seq<Record>, record: Value, now: string, env: Env)
    requires !Nullish(record)
    ensures var r, n := SavedRecord(records, record, now, env), NormalizeRecord(record, env).value;
      r.id == n.id && r.title == n.title && r.body == n.body && r.tags == n.tags
      && r.status == n.status && r.rating == n.rating
  {
    SavedInputKeeps(records, record, now);
    NormalizeReadsContent(SavedInput(records, record, now), record, env);
  }

  /** `records.map((item) => item.id === n.id ? n : item)` */
  function ReplaceById(records: seq<Record>, n: Record): (r: seq<Record>)
    ensures |r| == |records|
    ensures forall k :: 0 <= k < |records| ==> r[k] == if StrictEquals(records[k].id, n.id) then n else records[k]
  {
    if records == [] then []
    else [if StrictEquals(records[0].id, n.id) then n else records[0]] + ReplaceById(records[1..], n)
  }

  /** The list after an upsert of `n`: replaced in place when a record with
      its id existed, prepended otherwise. */
  function UpsertList(records: seq<Record>, n: Record, existed: bool): (r: seq<Record>)
    ensures |r| == if existed then |records| else |records| + 1
    ensures forall k :: 0 <= k < |r| ==> r[k] == n || r[k] in records
    ensures !existed ==> r[0] == n && r[1..] == records
  {
    if existed then ReplaceById(records, n) else [n] + records
  }

  /** After an upsert, looking the id up finds the saved record. */
  lemma {:induction false} UpsertFinds(records: seq<Record>, n: Record)
    requires Truthy(n.id)
    ensures Find(UpsertList(records, n, Find(records, n.id).Some?), n.id) == Some(n)
  {
    if Find(records, n.id).Some? {
      var k :| 0 <= k < |records| && StrictEquals(records[k].id, n.id);
      var r := ReplaceById(records, n);
      assert StrictEquals(r[k].id, n.id);
      ReplaceFindsFirst(records, n);
    }
  }

  lemma {:induction false} ReplaceFindsFirst(records: seq<Record>, n: Record)
    requires Find(records, n.id).Some?
    ensures Find(ReplaceById(records, n), n.id) == Some(n)
  {
    if !StrictEquals(records[0].id, n.id) {
      ReplaceFindsFirst(records[1..], n);
    }
  }

  /** An upsert leaves the records with any other id as they were, in
      order. */
  lemma {:induction false} UpsertOthersUnchanged(records: seq<Record>, n: Record, existed: bool)
    requires Truthy(n.id)
    ensures Filter(UpsertList(records, n, existed), NotId(n.id)) == Filter(records, NotId(n.id))
  {
    if existed {
      ReplaceOthers(records, n);
    } else {
      assert ([n] + records)[1..] == records;
    }
  }

  lemma {:induction false} ReplaceOthers(records: seq<Record>, n: Record)
    ensures Filter(ReplaceById(records, n), NotId(n.id)) == Filter(records, NotId(n.id))
  {
    if records != [] {
      ReplaceOthers(records[1..], n);
      assert ReplaceById(records, n)[1..] == ReplaceById(records[1..], n);
    }
  }

  /** `[...incoming, ...records.filter((item) => !incoming.find((r) => r.id === item.id))]` */
  function Merged(incoming: seq<Record>, records: seq<Record>): (r: seq<Record>)
    ensures |incoming| <= |r| <= |incoming| + |records|
    ensures r[..|incoming|] == incoming
  {
    incoming + Filter(records, (item: Record) => Find(incoming, item.id).None?)
  }

  /** The merge keeps every imported record, first and in order, and then the
      stored records whose id no imported record has. */
  lemma {:induction false} MergedSpec(incoming: seq<Record>, records: seq<Record>, x: Record)
    ensures Merged(incoming, records)[..|incoming|] == incoming
    ensures x in Merged(incoming, records) <==>
      x in incoming || (x in records && forall k :: 0 <= k < |incoming| ==> !StrictEquals(incoming[k].id, x.id))
  {
    FilterMember(records, (item: Record) => Find(incoming, item.id).None?, x);
  }

  /** After a delete no record has the id, and every other record stays. */
  lemma {:induction false} DeleteSpec(records: seq<Record>, id: Value, x: Record)
    ensures Find(Filter(records, NotId(id)), id).None?
    ensures x in Filter(records, NotId(id)) <==> x in records && !StrictEquals(x.id, id)
  {
    FilterMember(records, NotId(id), x);
    forall k | 0 <= k < |Filter(records, NotId(id))| ensures !StrictEquals(Filter(records, NotId(id))[k].id, id) {
      FilterMember(records, NotId(id), Filter(records, NotId(id))[k]);
    }
  }

  // ---- archive toggle ----

  function Flipped(s: Status): Status
  {
    if s == Archived then Active else Archived
  }

  /** `{ ...record, status: nextStatus }` for the stored record. */
  function ToggleInput(r: Record): Value
  {
    Obj(Spread(OwnProps(ToValue(r)), [("status", Str(StatusName(Flipped(r.status))))]))
  }

  lemma {:induction false} ToggleInputIs(r: Record)
    ensures ToggleInput(r) == ToValue(r.(status := Flipped(r.status)))
  {
    var v := Str(StatusName(Flipped(r.status)));
    var pre := [("id", r.id), ("title", Str(r.title)), ("body", Str(r.body)), ("tags", Arr(TagValues(r.tags)))];
    var post := [("rating", Num(r.rating)), ("createdAt", r.createdAt), ("updatedAt", r.updatedAt)];
    assert OwnProps(ToValue(r)) == pre + [("status", Str(StatusName(r.status)))] + post;
    assert OwnProps(ToValue(r.(status := Flipped(r.status)))) == pre + [("status", v)] + post;
    assert PropKeys(pre) == ["id", "title", "body", "tags"];
    PutAfter(pre, "status", Str(StatusName(r.status)), post, v);
    assert [("status", v)][1..] == [];
    calc {
      Spread(OwnProps(ToValue(r)), [("status", v)]);
      Spread(Put(OwnProps(ToValue(r)), "status", v), []);
      pre + [("status", v)] + post;
    }
  }

  /** The record an archive toggle saves: the stored record with its status
      flipped and `updatedAt` set to `now`; id, `createdAt` and the rest are
      kept, and no fresh id is drawn. */
  lemma {:induction false} ToggleSaves(records: seq<Record>, r: Record, now: string, env: Env)
    requires AllCanonical(records) && r in records && Find(records, r.id) == Some(r) && now != ""
    ensures SavedRecord(records, ToggleInput(r), now, env)
         == r.(status := Flipped(r.status), updatedAt := Str(now))
  {
    var u := r.(status := Flipped(r.status), updatedAt := Str(now));
    ToggleSavedInput(records, r, now);
    CanonicalMember(records, r);
    CanonicalRestamped(r, Flipped(r.status), now);
    NormalizeCopy(SavedInput(records, ToggleInput(r), now), u, env);
  }

  lemma {:induction false} CanonicalMember(records: seq<Record>, r: Record)
    requires AllCanonical(records) && r in records
    ensures Canonical(r)
  {
    var k :| 0 <= k < |records| && records[k] == r;
  }

  /** A new status and a non-empty `updatedAt` keep a record canonical. */
  lemma {:induction false} CanonicalRestamped(r: Record, status: Status, now: string)
    requires Canonical(r) && now != ""
    ensures Canonical(r.(status := status, updatedAt := Str(now)))
  {
  }

  /** An object whose eight fields are those of a canonical record
      normalizes to that record. */
  lemma {:induction false} NormalizeCopy(a: Value, u: Record, env: Env)
    requires !Nullish(a) && Canonical(u)
    requires var b := ToValue(u);
      && Field(a, "id") == Field(b, "id") && Field(a, "title") == Field(b, "title")
      && Field(a, "body") == Field(b, "body") && Field(a, "tags") == Field(b, "tags")
      && Field(a, "status") == Field(b, "status") && Field(a, "rating") == Field(b, "rating")
      && Field(a, "createdAt") == Field(b, "createdAt") && Field(a, "updatedAt") == Field(b, "updatedAt")
    ensures NormalizeRecord(a, env) == Ok(u)
  {
    NormalizeReadsFields(a, ToValue(u), env);
    NormalizeFixesCanonical(u, env);
  }

  lemma {:induction false} ToggleSavedInput(records: seq<Record>, r: Record, now: string)
    requires AllCanonical(records) && r in records && Find(records, r.id) == Some(r) && now != ""
    ensures var a, u := SavedInput(records, ToggleInput(r), now), ToValue(r.(status := Flipped(r.status), updatedAt := Str(now)));
      && Field(a, "id") == Field(u, "id") && Field(a, "title") == Field(u, "title")
      && Field(a, "body") == Field(u, "body") && Field(a, "tags") == Field(u, "tags")
      && Field(a, "status") == Field(u, "status") && Field(a, "rating") == Field(u, "rating")
      && Field(a, "createdAt") == Field(u, "createdAt") && Field(a, "updatedAt") == Field(u, "updatedAt")
  {
    ToggleSavedContent(records, r, now);
    ToggleSavedTimes(records, r, now);
  }

  lemma {:induction false} ToggleSavedContent(records: seq<Record>, r: Record, now: string)
    ensures var a, u := SavedInput(records, ToggleInput(r), now), ToValue(r.(status := Flipped(r.status), updatedAt := Str(now)));
      && Field(a, "id") == Field(u, "id") && Field(a, "title") == Field(u, "title")
      && Field(a, "body") == Field(u, "body") && Field(a, "tags") == Field(u, "tags")
      && Field(a, "status") == Field(u, "status") && Field(a, "rating") == Field(u, "rating")
  {
    var t := r.(status := Flipped(r.status));
    SavedInputKeeps(records, ToggleInput(r), now);
    ToggleInputIs(r);
    ContentFields(t, t.(updatedAt := Str(now)));
  }

  lemma {:induction false} SavedInputKeeps(records: seq<Record>, record: Value, now: string)
    ensures var a := SavedInput(records, record, now);
      && Field(a, "id") == Field(record, "id") && Field(a, "title") == Field(record, "title")
      && Field(a, "body") == Field(record, "body") && Field(a, "tags") == Field(record, "tags")
      && Field(a, "status") == Field(record, "status") && Field(a, "rating") == Field(record, "rating")
  {
    StampedKeeps(record, KeptCreatedAt(records, record, now), now);
  }

  lemma {:induction false} StampedKeeps(record: Value, createdAt: Value, now: string)
    ensures var a := Stamped(record, createdAt, now);
      && Field(a, "id") == Field(record, "id") && Field(a, "title") == Field(record, "title")
      && Field(a, "body") == Field(record, "body") && Field(a, "tags") == Field(record, "tags")
      && Field(a, "status") == Field(record, "status") && Field(a, "rating") == Field(record, "rating")
  {
    StampedKeep(record, createdAt, now, "id");
    StampedKeep(record, createdAt, now, "title");
    StampedKeep(record, createdAt, now, "body");
    StampedKeep(record, createdAt, now, "tags");
    StampedKeep(record, createdAt, now, "status");
    StampedKeep(record, createdAt, now, "rating");
  }

  lemma {:induction false} StampedKeep(record: Value, createdAt: Value, now: string, k: string)
    requires k != "createdAt" && k != "updatedAt"
    ensures Field(Stamped(record, createdAt, now), k) == Field(record, k)
  {
    SpreadPairLookup(OwnProps(record), "createdAt", createdAt, "updatedAt", Str(now), k);
  }

  lemma {:induction false} ContentFields(t: Record, u: Record)
    requires t.id == u.id && t.title == u.title && t.body == u.body && t.tags == u.tags
    requires t.status == u.status && t.rating == u.rating
    ensures var a, b := ToValue(t), ToValue(u);
      && Field(a, "id") == Field(b, "id") && Field(a, "title") == Field(b, "title")
      && Field(a, "body") == Field(b, "body") && Field(a, "tags") == Field(b, "tags")
      && Field(a, "status") == Field(b, "status") && Field(a, "rating") == Field(b, "rating")
  {
    ToValueFields(t);
    ToValueFields(u);
  }

  lemma {:induction false} ToggleSavedTimes(records: seq<Record>, r: Record, now: string)
    requires AllCanonical(records) && r in records && Find(records, r.id) == Some(r) && now != ""
    ensures var a, u := SavedInput(records, ToggleInput(r), now), ToValue(r.(status := Flipped(r.status), updatedAt := Str(now)));
      Field(a, "createdAt") == Field(u, "createdAt") && Field(a, "updatedAt") == Field(u, "updatedAt")
  {
    var t := r.(status := Flipped(r.status));
    ToggleInputIs(r);
    ToValueFields(t);
    ToValueFields(t.(updatedAt := Str(now)));
    CanonicalMember(records, r);
    assert KeptCreatedAt(records, ToggleInput(r), now) == r.createdAt;
    SavedInputFields(records, ToggleInput(r), now);
  }

  // ---- onDuplicate ----

  /** The overrides `onDuplicate` passes to `createRecord`: the title with
      " (copy)" appended and the body, tags, status and rating of `r`. */
  function DuplicateOverrides(r: Record): seq<(string, Value)>
  {
    [("title", Str(r.title + " (copy)")), ("body", Str(r.body)), ("tags", Arr(TagValues(r.tags))),
     ("status", Str(StatusName(r.status))), ("rating", Num(r.rating))]
  }

  /** The copy `createRecord` builds, where `uuid()` gave `id` and `nowIso()`
      gave `timestamp`. */
  function DuplicateOf(r: Record, id: string, timestamp: string): Value
  {
    CreateRecord(Obj(DuplicateOverrides(r)), id, timestamp)
  }

  /** The copy has a new id and timestamps of its own and the content of the
      original, with the title marked as a copy. */
  lemma {:induction false} DuplicateFields(r: Record, id: string, timestamp: string)
    ensures var d := DuplicateOf(r, id, timestamp);
      && Field(d, "id") == Str(id) && Field(d, "title") == Str(r.title + " (copy)")
      && Field(d, "body") == Str(r.body) && Field(d, "tags") == Arr(TagValues(r.tags))
      && Field(d, "status") == Str(StatusName(r.status)) && Field(d, "rating") == Num(r.rating)
      && Field(d, "createdAt") == Str(timestamp) && Field(d, "updatedAt") == Str(timestamp)
  {
    DuplicateDefaults(r, id, timestamp);
    DuplicateOverridden(r, id, timestamp);
  }

  lemma {:induction false} DuplicateDefaults(r: Record, id: string, timestamp: string)
    ensures var d := DuplicateOf(r, id, timestamp);
      Field(d, "id") == Str(id) && Field(d, "createdAt") == Str(timestamp) && Field(d, "updatedAt") == Str(timestamp)
  {
    var over := DuplicateOverrides(r);
    assert PropKeys(over) == ["title", "body", "tags", "status", "rating"];
    CreatedStamps(over, id, timestamp);
  }

  lemma {:induction false} DuplicateOverridden(r: Record, id: string, timestamp: string)
    ensures var d := DuplicateOf(r, id, timestamp);
      && Field(d, "title") == Str(r.title + " (copy)") && Field(d, "body") == Str(r.body)
      && Field(d, "tags") == Arr(TagValues(r.tags)) && Field(d, "status") == Str(StatusName(r.status))
      && Field(d, "rating") == Num(r.rating)
  {
    var over := DuplicateOverrides(r);
    assert PropKeys(over) == ["title", "body", "tags", "status", "rating"];
    assert DistinctKeys(over);
    CreatedOverride(over, id, timestamp, 0);
    CreatedOverride(over, id, timestamp, 1);
    CreatedOverride(over, id, timestamp, 2);
    CreatedOverride(over, id, timestamp, 3);
    CreatedOverride(over, id, timestamp, 4);
  }

  /** Saving the copy under an id no record has yet puts a new record first:
      the original's content, the copy's title, and both timestamps from
      the time of the save. */
  lemma {:induction false} DuplicateSaved(records: seq<Record>, r: Record, id: string, timestamp: string, now: string, env: Env)
    requires AllCanonical(records) && Canonical(r)
    requires id != "" && timestamp != "" && now != ""
    requires Find(records, Str(id)).None?
    ensures var d := DuplicateOf(r, id, timestamp);
      && Find(records, Field(d, "id")).None?
      && SavedRecord(records, d, now, env)
         == Record(Str(id), r.title + " (copy)", r.body, r.tags, r.status, r.rating, Str(timestamp), Str(now))
  {
    var d := DuplicateOf(r, id, timestamp);
    var u := Record(Str(id), r.title + " (copy)", r.body, r.tags, r.status, r.rating, Str(timestamp), Str(now));
    DuplicateInput(records, r, id, timestamp, now, d, u);
    CopyCanonical(r, u);
    SavedCopy(records, d, now, u, env);
  }

  /** A copy of a canonical record with truthy id and timestamps and the same
      tags is canonical. */
  lemma {:induction false} CopyCanonical(r: Record, u: Record)
    requires Canonical(r) && u.tags == r.tags
    requires u.id.Str? && u.id.s != "" && u.createdAt.Str? && u.createdAt.s != ""
    requires u.updatedAt.Str? && u.updatedAt.s != ""
    ensures Canonical(u)
  {
  }

  lemma {:induction false} DuplicateInput(records: seq<Record>, r: Record, id: string, timestamp: string, now: string, d: Value, u: Record)
    requires AllCanonical(records) && timestamp != "" && now != ""
    requires Find(records, Str(id)).None?
    requires d == DuplicateOf(r, id, timestamp)
    requires u == Record(Str(id), r.title + " (copy)", r.body, r.tags, r.status, r.rating, Str(timestamp), Str(now))
    ensures !Nullish(d)
    ensures Find(records, Field(d, "id")).None?
    ensures SameFields(SavedInput(records, d, now), ToValue(u))
  {
    DuplicateFields(r, id, timestamp);
    KeptCreatedAtIs(records, d, now);
    SavedInputFields(records, d, now);
    ToValueFields(u);
  }

  /** `a` and `b` agree on the eight fields `normalizeRecord` reads. */
  predicate SameFields(a: Value, b: Value)
  {
    && Field(a, "id") == Field(b, "id") && Field(a, "title") == Field(b, "title")
    && Field(a, "body") == Field(b, "body") && Field(a, "tags") == Field(b, "tags")
    && Field(a, "status") == Field(b, "status") && Field(a, "rating") == Field(b, "rating")
    && Field(a, "createdAt") == Field(b, "createdAt") && Field(a, "updatedAt") == Field(b, "updatedAt")
  }

  /** A record value whose eight fields, once stamped, are those of a
      normalized record `u` is saved as `u`. */
  lemma {:induction false} SavedCopy(records: seq<Record>, d: Value, now: string, u: Record, env: Env)
    requires !Nullish(d) && Canonical(u)
    requires SameFields(SavedInput(records, d, now), ToValue(u))
    ensures SavedRecord(records, d, now, env) == u
  {
    NormalizeCopy(SavedInput(records, d, now), u, env);
  }

  // ---- the application state ----

  class AppState {
    var records: seq<Record>
    /** null when nothing is selected. */
    var selectedId: Value
    var filters: Filters

    /** The records in memory are the output of `normalizeRecord`. */
    ghost predicate Valid()
      reads this
    {
      AllCanonical(records)
    }

    constructor()
      ensures Valid()
      ensures records == [] && selectedId == Null && filters == DefaultFilters
    {
      records := [];
      selectedId := Null;
      filters := DefaultFilters;
    }

    /** `applyFilters()`: a function of the state, which it does not
        change. */
    function View(le: (string, string) -> bool): seq<Record>
      reads this
    {
      ApplyFilters(records, filters, le)
    }

    /** `setRecords(raws)`; `thrown` reports the TypeError of normalizing a
        null or undefined element, which leaves the state as it was. */
    method SetRecords(raws: seq<Value>, envs: seq<Env>) returns (thrown: bool)
      requires Valid() && |envs| == |raws| && ValidEnvs(envs)
      modifies this
      ensures Valid() && filters == old(filters)
      ensures thrown <==> NormalizeAll(raws, envs).Throws?
      ensures thrown ==> records == old(records) && selectedId == old(selectedId)
      ensures !thrown ==> records == NormalizeAll(raws, envs).value
      ensures !thrown ==> selectedId == KeptSelection(records, old(selectedId))
    {
      var normalized := NormalizeAll(raws, envs);
      if normalized.Throws? {
        return true;
      }
      NormalizeAllCanonical(raws, envs);
      records := normalized.value;
      if Truthy(selectedId) && Find(records, selectedId).None? {
        selectedId := Null;
      }
      return false;
    }

    /** `setRecords` with records that are already normalized: the list is
        taken as it is. */
    method SetNormalized(next: seq<Record>)
      requires Valid() && AllCanonical(next)
      modifies this
      ensures Valid() && filters == old(filters)
      ensures records == next && selectedId == KeptSelection(next, old(selectedId))
    {
      var envs := seq(|next|, _ => Env("id", "now", "now"));
      NormalizeAllFixes(next, envs);
      var thrown := SetRecords(ToValues(next), envs);
    }

    /** `upsertLocalRecord(record)` at time `now`; reading the id of null or
        undefined throws before anything changes. */
    method Upsert(record: Value, now: string, env: Env) returns (thrown: bool)
      requires Valid() && ValidEnv(env) && now != ""
      modifies this
      ensures Valid() && filters == old(filters)
      ensures thrown <==> Nullish(record)
      ensures thrown ==> records == old(records) && selectedId == old(selectedId)
      ensures !thrown ==> records == UpsertList(old(records), SavedRecord(old(records), record, now, env),
                                                Find(old(records), Field(record, "id")).Some?)
      ensures !thrown ==> selectedId == SavedRecord(old(records), record, now, env).id
    {
      if Nullish(record) {
        return true;
      }
      var existing := Find(records, Field(record, "id"));
      var normalized := SavedRecord(records, record, now, env);
      SavedCanonical(records, record, now, env);
      var next := UpsertList(records, normalized, existing.Some?);
      UpsertListCanonical(records, normalized, existing.Some?);
      SetNormalized(next);
      selectedId := normalized.id;
      return false;
    }

    /** The `onSelect` handler. */
    method Select(id: Value)
      modifies this
      ensures selectedId == id && records == old(records) && filters == old(filters)
    {
      selectedId := id;
    }

    /** The `onFilterChange` handler. */
    method FilterChange(patch: FilterPatch)
      modifies this
      ensures filters == Patched(old(filters), patch)
      ensures records == old(records) && selectedId == old(selectedId)
    {
      filters := Patched(filters, patch);
    }

    /** The `onDelete` handler once the user has confirmed. */
    method Delete(id: Value)
      requires Valid()
      modifies this
      ensures Valid() && filters == old(filters)
      ensures records == Filter(old(records), NotId(id))
      ensures selectedId == KeptSelection(records, old(selectedId))
    {
      FilterCanonical(records, NotId(id));
      SetNormalized(Filter(records, NotId(id)));
    }

    /** The `onArchiveToggle` handler: nothing happens when no record has the
        id; otherwise the record is saved again with its status flipped. */
    method ArchiveToggle(id: Value, now: string, env: Env)
      requires Valid() && ValidEnv(env) && now != ""
      modifies this
      ensures Valid() && filters == old(filters)
      ensures Find(old(records), id).None? ==> records == old(records) && selectedId == old(selectedId)
      ensures Find(old(records), id).Some? ==>
        var r := Find(old(records), id).value;
        && records == ReplaceById(old(records), r.(status := Flipped(r.status), updatedAt := Str(now)))
        && selectedId == r.id
    {
      var found := Find(records, id);
      if found.None? {
        return;
      }
      var r := found.value;
      assert r.id == id;
      ToggleSaves(records, r, now, env);
      ToggleInputIs(r);
      ToValueFields(r.(status := Flipped(r.status)));
      var thrown := Upsert(ToggleInput(r), now, env);
    }

    /** The `onDuplicate` handler: nothing happens when no record has the
        id; otherwise the copy `createRecord` builds, with `uuid()` giving
        `newId` and `nowIso()` giving `timestamp`, is saved at time `now`. */
    method Duplicate(id: Value, newId: string, timestamp: string, now: string, env: Env)
      requires Valid() && ValidEnv(env) && now != ""
      modifies this
      ensures Valid() && filters == old(filters)
      ensures Find(old(records), id).None? ==> records == old(records) && selectedId == old(selectedId)
      ensures Find(old(records), id).Some? ==>
        var d := DuplicateOf(Find(old(records), id).value, newId, timestamp);
        && records == UpsertList(old(records), SavedRecord(old(records), d, now, env),
                                 Find(old(records), Field(d, "id")).Some?)
        && selectedId == SavedRecord(old(records), d, now, env).id
      ensures Find(old(records), id).Some? && newId != "" && timestamp != "" && Find(old(records), Str(newId)).None? ==>
        var r := Find(old(records), id).value;
        && records == [Record(Str(newId), r.title + " (copy)", r.body, r.tags, r.status, r.rating, Str(timestamp), Str(now))]
                      + old(records)
        && selectedId == Str(newId)
    {
      var found := Find(records, id);
      if found.None? {
        return;
      }
      if newId != "" && timestamp != "" && Find(records, Str(newId)).None? {
        CanonicalMember(records, found.value);
        DuplicateSaved(records, found.value, newId, timestamp, now, env);
      }
      var thrown := Upsert(DuplicateOf(found.value, newId, timestamp), now, env);
    }

    /** The `onMerge` handler, given the normalized records of the import
        preview. */
    method Merge(incoming: seq<Record>)
      requires Valid() && AllCanonical(incoming)
      modifies this
      ensures Valid() && filters == old(filters)
      ensures records == Merged(incoming, old(records))
      ensures selectedId == KeptSelection(records, old(selectedId))
    {
      MergedCanonical(incoming, records);
      SetNormalized(Merged(incoming, records));
    }

    /** The `onReplace` handler and `loadData`: the list becomes the given
        records, normalized. */
    method Replace(raws: seq<Value>, envs: seq<Env>) returns (thrown: bool)
      requires Valid() && |envs| == |raws| && ValidEnvs(envs)
      modifies this
      ensures Valid() && filters == old(filters)
      ensures thrown <==> NormalizeAll(raws, envs).Throws?
      ensures !thrown ==> records == NormalizeAll(raws, envs).value
      ensures thrown ==> records == old(records) && selectedId == old(selectedId)
      ensures !thrown ==> selectedId == KeptSelection(records, old(selectedId))
    {
      thrown := SetRecords(raws, envs);
    }

    /** The `onGenerate` handler: the generated records go before the stored
        ones. */
    method Generate(generated: seq<Value>, envs: seq<Env>) returns (thrown: bool)
      requires Valid() && |envs| == |generated| + |records| && ValidEnvs(envs)
      modifies this
      ensures Valid() && filters == old(filters)
      ensures thrown <==> AnyNullish(generated)
      ensures thrown ==> records == old(records) && selectedId == old(selectedId)
      ensures !thrown ==> records == NormalizeAll(generated, envs[..|generated|]).value + old(records)
      ensures !thrown ==> selectedId == KeptSelection(records, old(selectedId))
    {
      var raws := generated + ToValues(records);
      ghost var before := records;
      NormalizeAllFixes(records, envs[|generated|..]);
      NormalizeAllSplit(generated, ToValues(records), envs);
      thrown := SetRecords(raws, envs);
      assert !thrown ==> records == NormalizeAll(generated, envs[..|generated|]).value + before;
    }

    /** The `onClear` handler once the user has confirmed. */
    method Clear()
      requires Valid()
      modifies this
      ensures Valid() && filters == old(filters)
      ensures records == []
      ensures selectedId == if Truthy(old(selectedId)) then Null else old(selectedId)
    {
      SetNormalized([]);
    }
  }

  // ---- helpers for the state methods ----

  lemma {:induction false} SavedCanonical(records: seq<Record>, record: Value, now: string, env: Env)
    requires ValidEnv(env)
    ensures Canonical(SavedRecord(records, record, now, env))
  {
    NormalizeCanonical(SavedInput(records, record, now), env);
  }

  lemma {:induction false} UpsertListCanonical(records: seq<Record>, n: Record, existed: bool)
    requires AllCanonical(records) && Canonical(n)
    ensures AllCanonical(UpsertList(records, n, existed))
  {
    if !existed {
      assert forall k :: 1 <= k < |records| + 1 ==> ([n] + records)[k] == records[k - 1];
    }
  }

  lemma {:induction false} FilterCanonical(records: seq<Record>, keep: Record -> bool)
    requires AllCanonical(records)
    ensures AllCanonical(Filter(records, keep))
  {
    forall k | 0 <= k < |Filter(records, keep)| ensures Canonical(Filter(records, keep)[k]) {
      FilterMember(records, keep, Filter(records, keep)[k]);
    }
  }

  lemma {:induction false} MergedCanonical(incoming: seq<Record>, records: seq<Record>)
    requires AllCanonical(incoming) && AllCanonical(records)
    ensures AllCanonical(Merged(incoming, records))
  {
    FilterCanonical(records, (item: Record) => Find(incoming, item.id).None?);
  }

  lemma {:induction false} NormalizeAllSplit(a: seq<Value>, b: seq<Value>, envs: seq<Env>)
    requires |envs| == |a| + |b| && !AnyNullish(b)
    ensures NormalizeAll(a + b, envs).Throws? <==> AnyNullish(a)
    ensures NormalizeAll(a + b, envs).Ok? ==>
      NormalizeAll(a + b, envs).value == NormalizeAll(a, envs[..|a|]).value + NormalizeAll(b, envs[|a|..]).value
  {
    AnyNullishAppend(a, b);
    if !AnyNullish(a) {
      var all := NormalizeAll(a + b, envs).value;
      var left := NormalizeAll(a, envs[..|a|]).value;
      var right := NormalizeAll(b, envs[|a|..]).value;
      forall k | 0 <= k < |all| ensures all[k] == (left + right)[k] {
        NormalizeAllSplitAt(a, b, envs, k);
      }
      assert all == left + right;
    }
  }

  lemma {:induction false} NormalizeAllSplitAt(a: seq<Value>, b: seq<Value>, envs: seq<Env>, k: int)
    requires |envs| == |a| + |b| && !AnyNullish(a) && !AnyNullish(b) && 0 <= k < |a| + |b|
    ensures NormalizeAll(a + b, envs).Ok?
    ensures NormalizeAll(a + b, envs).value[k]
         == (NormalizeAll(a, envs[..|a|]).value + NormalizeAll(b, envs[|a|..]).value)[k]
  {
    AnyNullishAppend(a, b);
    NormalizeAllAt(a + b, envs, k);
    if k < |a| {
      NormalizeAllAt(a, envs[..|a|], k);
      assert (a + b)[k] == a[k];
    } else {
      NormalizeAllAt(b, envs[|a|..], k - |a|);
      assert (a + b)[k] == b[k - |a|];
    }
  }
}
