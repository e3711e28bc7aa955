/** src/model.js: the record shape, `createRecord`, `normalizeRecord` and
    `validateRecord`. */
module Model {
  import opened Text
  import opened JsValue
  import Seqs

  datatype Status = Active | Archived

  /** A record as `normalizeRecord` leaves it: exactly these eight fields, in
      this order. `id`, `createdAt` and `updatedAt` keep whatever truthy value
      they were given; `rating` is whatever `Number(...)` produced. */
  datatype Record = Record(
    id: Value,
    title: string,
    body: string,
    tags: seq<string>,
    status: Status,
    rating: Number,
    createdAt: Value,
    updatedAt: Value)

  /** The values `uuid()` and `nowIso()` return during one call of
      `normalizeRecord`: the fallback id, and the fallback creation and update
      times. */
  datatype Env = Env(uuid: string, createdNow: string, updatedNow: string)

  /** `uuid()` and `nowIso()` never return the empty string. */
  predicate ValidEnv(env: Env)
  {
    env.uuid != "" && env.createdNow != "" && env.updatedNow != ""
  }

  function StatusName(s: Status): string
  {
    match s
    case Active => "active"
    case Archived => "archived"
  }

  function TagValues(tags: seq<string>): (r: seq<Value>)
    ensures |r| == |tags| && forall k :: 0 <= k < |tags| ==> r[k] == Str(tags[k])
  {
    seq(|tags|, k requires 0 <= k < |tags| => Str(tags[k]))
  }

  /** The record as the JavaScript object it is. */
  function ToValue(r: Record): Value
  {
    Obj(RecordProps(r.id, Str(r.title), Str(r.body), Arr(TagValues(r.tags)), Str(StatusName(r.status)),
                    Num(r.rating), r.createdAt, r.updatedAt))
  }

  /** The properties of a record object, in the order `createRecord` writes
      them. */
  function RecordProps(id: Value, title: Value, body: Value, tags: Value, status: Value, rating: Value,
                       createdAt: Value, updatedAt: Value): seq<(string, Value)>
  {
    [("id", id), ("title", title), ("body", body), ("tags", tags),
     ("status", status), ("rating", rating), ("createdAt", createdAt), ("updatedAt", updatedAt)]
  }

  const FieldNames: seq<string> := ["id", "title", "body", "tags", "status", "rating", "createdAt", "updatedAt"]

  // ---- createRecord ----

  /** The literal of `createRecord` before the overrides are spread in. */
  function Defaults(id: string, timestamp: string): seq<(string, Value)>
  {
    [("id", Str(id)), ("title", Str("")), ("body", Str("")), ("tags", Arr([])),
     ("status", Str("active")), ("rating", Num(Int(3))),
     ("createdAt", Str(timestamp)), ("updatedAt", Str(timestamp))]
  }

  /** `createRecord(overrides)`, where `uuid()` gave `id` and `nowIso()` gave
      `timestamp`; a missing argument is `{}`, which spreads like
      `undefined`. */
  function CreateRecord(overrides: Value, id: string, timestamp: string): (r: Value)
    ensures r.Obj?
    ensures Keys(overrides) == [] ==> r == Obj(Defaults(id, timestamp))
  {
    Obj(Spread(Defaults(id, timestamp), OwnProps(overrides)))
  }

  /** Every field of `createRecord(overrides)` is the override when there is
      one for it, the default otherwise. */
  lemma {:induction false} CreateRecordFields(overrides: Value, id: string, timestamp: string, k: string)
    ensures Member(CreateRecord(overrides, id, timestamp), k)
         == Ok(if k in Keys(overrides) then Lookup(Spread([], OwnProps(overrides)), k)
               else Lookup(Defaults(id, timestamp), k))
  {
    SpreadLookup(Defaults(id, timestamp), OwnProps(overrides), k);
  }

  /** The keys are in `Object.keys` order, and those that are not array
      indices begin with the eight default fields, in the literal's order,
      whatever the overrides. */
  lemma {:induction false} CreateRecordKeys(overrides: Value, id: string, timestamp: string)
    ensures OrderedKeys(Keys(CreateRecord(overrides, id, timestamp)))
    ensures FieldNames <= Seqs.Filter(Keys(CreateRecord(overrides, id, timestamp)), IsNamedKey)
  {
    DefaultsNamed(id, timestamp);
    SpreadFieldKeys(Defaults(id, timestamp), OwnProps(overrides));
  }

  lemma {:induction false} DefaultsNamed(id: string, timestamp: string)
    ensures OrderedKeys(PropKeys(Defaults(id, timestamp)))
    ensures Seqs.Filter(PropKeys(Defaults(id, timestamp)), IsNamedKey) == FieldNames
  {
    DefaultsKeys(id, timestamp);
    FieldNamesNamed();
  }

  lemma {:induction false} SpreadFieldKeys(base: seq<(string, Value)>, over: seq<(string, Value)>)
    requires OrderedKeys(PropKeys(base)) && Seqs.Filter(PropKeys(base), IsNamedKey) == FieldNames
    ensures OrderedKeys(PropKeys(Spread(base, over)))
    ensures FieldNames <= Seqs.Filter(PropKeys(Spread(base, over)), IsNamedKey)
  {
    SpreadKeys(base, over);
  }

  /** No field name is an array index. */
  lemma {:induction false} FieldNamesNamed()
    ensures forall j :: 0 <= j < |FieldNames| ==> IsNamedKey(FieldNames[j])
    ensures OrderedKeys(FieldNames) && Seqs.Filter(FieldNames, IsNamedKey) == FieldNames
  {
    forall j | 0 <= j < |FieldNames| ensures IsNamedKey(FieldNames[j]) {
      assert !IsDigit(FieldNames[j][0]);
    }
    Seqs.FilterAll(FieldNames, IsNamedKey);
  }

  /** A field the overrides give reads as the override. */
  lemma {:induction false} CreatedOverride(over: seq<(string, Value)>, id: string, timestamp: string, j: int)
    requires DistinctKeys(over) && 0 <= j < |over|
    ensures Field(CreateRecord(Obj(over), id, timestamp), over[j].0) == over[j].1
  {
    SpreadDistinctLookup(Defaults(id, timestamp), over, j);
  }

  /** A field the overrides do not give reads as the default. */
  lemma {:induction false} CreatedDefault(over: seq<(string, Value)>, id: string, timestamp: string, j: int)
    requires 0 <= j < |FieldNames| && FieldNames[j] !in PropKeys(over)
    ensures Field(CreateRecord(Obj(over), id, timestamp), FieldNames[j]) == Defaults(id, timestamp)[j].1
  {
    DefaultsKeys(id, timestamp);
    SpreadBaseLookup(Defaults(id, timestamp), over, j);
  }

  /** Overrides without an id or timestamps leave the fresh id and the
      creation time in place. */
  lemma {:induction false} CreatedStamps(over: seq<(string, Value)>, id: string, timestamp: string)
    requires "id" !in PropKeys(over) && "createdAt" !in PropKeys(over) && "updatedAt" !in PropKeys(over)
    ensures var d := CreateRecord(Obj(over), id, timestamp);
      Field(d, "id") == Str(id) && Field(d, "createdAt") == Str(timestamp) && Field(d, "updatedAt") == Str(timestamp)
  {
    CreatedDefault(over, id, timestamp, 0);
    CreatedDefault(over, id, timestamp, 6);
    CreatedDefault(over, id, timestamp, 7);
  }

  lemma {:induction false} DefaultsKeys(id: string, timestamp: string)
    ensures PropKeys(Defaults(id, timestamp)) == FieldNames
  {
  }

  lemma {:induction false} SpreadBaseLookup(base: seq<(string, Value)>, over: seq<(string, Value)>, j: int)
    requires PropKeys(base) == FieldNames && 0 <= j < |FieldNames| && FieldNames[j] !in PropKeys(over)
    ensures Lookup(Spread(base, over), FieldNames[j]) == base[j].1
  {
    SpreadLookup(base, over, FieldNames[j]);
    FieldLookup(base, j);
  }

  // ---- normalizeRecord ----

  /** `.filter(Boolean)` on strings: drops the empty ones. */
  function NonEmpty(tags: seq<string>): (r: seq<string>)
    ensures forall k :: 0 <= k < |r| ==> r[k] != "" && r[k] in tags
    ensures |r| <= |tags|
  {
    if tags == [] then []
    else (if tags[0] != "" then [tags[0]] else []) + NonEmpty(tags[1..])
  }

  function StringOfEach(vs: seq<Value>): (r: seq<string>)
    ensures |r| == |vs| && forall k :: 0 <= k < |vs| ==> r[k] == ToStr(vs[k])
  {
    seq(|vs|, k requires 0 <= k < |vs| => ToStr(vs[k]))
  }

  /** The `tags` field of `normalizeRecord`: an array's elements, or a
      comma-separated string's pieces, each made a string and trimmed, the
      empty ones dropped. */
  function NormalizeTags(tags: Value): seq<string>
  {
    if tags.Arr? then NonEmpty(TrimEach(StringOfEach(tags.elems)))
    else NonEmpty(TrimEach(Split(ToStr(Or(tags, Str(""))), ',')))
  }

  /** `raw[k]` on a value that is not null or undefined. */
  function Field(raw: Value, k: string): Value
  {
    Lookup(OwnProps(raw), k)
  }

  /** `normalizeRecord(raw)`: reading a field of null or undefined throws. */
  function NormalizeRecord(raw: Value, env: Env): (r: Outcome<Record>)
    ensures r.Throws? <==> Nullish(raw)
  {
    if Nullish(raw) then Throws
    else
      Ok(NormalizeFields(Field(raw, "id"), Field(raw, "title"), Field(raw, "body"), Field(raw, "tags"),
                         Field(raw, "status"), Field(raw, "rating"), Field(raw, "createdAt"), Field(raw, "updatedAt"), env))
  }

  /** The record `normalizeRecord` builds from the eight fields it reads. */
  function NormalizeFields(id: Value, title: Value, body: Value, tags: Value, status: Value, rating: Value,
                           createdAt: Value, updatedAt: Value, env: Env): (r: Record)
    ensures ValidEnv(env) ==> Truthy(r.id) && Truthy(r.createdAt) && Truthy(r.updatedAt)
    ensures r.status == Archived <==> status == Str("archived")
  {
    Record(
      id := Or(id, Str(env.uuid)),
      title := ToStr(Or(title, Str(""))),
      body := ToStr(Or(body, Str(""))),
      tags := NormalizeTags(tags),
      status := if StrictEquals(status, Str("archived")) then Archived else Active,
      rating := ToNumber(Coalesce(rating, Num(Int(0)))),
      createdAt := Or(createdAt, Str(env.createdNow)),
      updatedAt := Or(updatedAt, Str(env.updatedNow)))
  }

  /** The normalized record is `createRecord` applied to the normalized
      fields: the eight overrides replace every default, so the result is
      exactly the record, whatever `createRecord`'s own `uuid()` and
      `nowIso()` returned. */
  lemma {:induction false} NormalizeIsCreate(r: Record, id: string, timestamp: string)
    ensures CreateRecord(ToValue(r), id, timestamp) == ToValue(r)
  {
    var ps := OwnProps(ToValue(r));
    var d := Defaults(id, timestamp);
    assert PropKeys(d) == FieldNames == PropKeys(ps);
    SpreadSameKeys(d, ps, 0);
    assert ps[0..] == ps;
  }

  /** The eight field names are distinct, so any property list with them as
      keys has distinct keys. */
  lemma {:induction false} FieldNamesKeys(ps: seq<(string, Value)>)
    requires PropKeys(ps) == FieldNames
    ensures DistinctKeys(ps)
  {
    forall i, j | 0 <= i < j < |ps| ensures ps[i].0 != ps[j].0 {
      assert ps[i].0 == FieldNames[i] && ps[j].0 == FieldNames[j];
    }
  }

  /** The eight fields of a record, read back from its object. */
  lemma {:induction false} ToValueFields(r: Record)
    ensures Member(ToValue(r), "id") == Ok(r.id)
    ensures Member(ToValue(r), "title") == Ok(Str(r.title))
    ensures Member(ToValue(r), "body") == Ok(Str(r.body))
    ensures Member(ToValue(r), "tags") == Ok(Arr(TagValues(r.tags)))
    ensures Member(ToValue(r), "status") == Ok(Str(StatusName(r.status)))
    ensures Member(ToValue(r), "rating") == Ok(Num(r.rating))
    ensures Member(ToValue(r), "createdAt") == Ok(r.createdAt)
    ensures Member(ToValue(r), "updatedAt") == Ok(r.updatedAt)
  {
    PropsMembers(r.id, Str(r.title), Str(r.body), Arr(TagValues(r.tags)), Str(StatusName(r.status)),
                 Num(r.rating), r.createdAt, r.updatedAt);
  }

  /** Each field name of a record object reads as its own property. */
  lemma {:induction false} PropsMembers(id: Value, title: Value, body: Value, tags: Value, status: Value, rating: Value,
                     createdAt: Value, updatedAt: Value)
    ensures var v := Obj(RecordProps(id, title, body, tags, status, rating, createdAt, updatedAt));
      && Member(v, "id") == Ok(id) && Member(v, "title") == Ok(title) && Member(v, "body") == Ok(body)
      && Member(v, "tags") == Ok(tags) && Member(v, "status") == Ok(status) && Member(v, "rating") == Ok(rating)
      && Member(v, "createdAt") == Ok(createdAt) && Member(v, "updatedAt") == Ok(updatedAt)
  {
    PropsLookup(id, title, body, tags, status, rating, createdAt, updatedAt);
  }

  /** Each field name reads as its own property. */
  lemma {:induction false} PropsLookup(id: Value, title: Value, body: Value, tags: Value, status: Value, rating: Value,
                    createdAt: Value, updatedAt: Value)
    ensures var ps := RecordProps(id, title, body, tags, status, rating, createdAt, updatedAt);
      && Lookup(ps, "id") == id && Lookup(ps, "title") == title && Lookup(ps, "body") == body
      && Lookup(ps, "tags") == tags && Lookup(ps, "status") == status && Lookup(ps, "rating") == rating
      && Lookup(ps, "createdAt") == createdAt && Lookup(ps, "updatedAt") == updatedAt
  {
    var ps := RecordProps(id, title, body, tags, status, rating, createdAt, updatedAt);
    assert PropKeys(ps) == FieldNames;
    FieldLookup(ps, 0);
    FieldLookup(ps, 1);
    FieldLookup(ps, 2);
    FieldLookup(ps, 3);
    FieldLookup(ps, 4);
    FieldLookup(ps, 5);
    FieldLookup(ps, 6);
    FieldLookup(ps, 7);
  }

  /** In an object keyed by the eight field names, each name reads as its
      own property. */
  lemma {:induction false} FieldLookup(ps: seq<(string, Value)>, j: int)
    requires PropKeys(ps) == FieldNames && 0 <= j < |FieldNames|
    ensures Lookup(ps, FieldNames[j]) == ps[j].1
  {
    FieldNamesKeys(ps);
    LookupDistinct(ps, j);
  }

  /** `normalizeRecord` reads nothing but the eight fields. */
  lemma {:induction false} NormalizeReadsFields(a: Value, b: Value, env: Env)
    requires !Nullish(a) && !Nullish(b)
    requires Field(a, "id") == Field(b, "id") && Field(a, "title") == Field(b, "title")
    requires Field(a, "body") == Field(b, "body") && Field(a, "tags") == Field(b, "tags")
    requires Field(a, "status") == Field(b, "status") && Field(a, "rating") == Field(b, "rating")
    requires Field(a, "createdAt") == Field(b, "createdAt") && Field(a, "updatedAt") == Field(b, "updatedAt")
    ensures NormalizeRecord(a, env) == NormalizeRecord(b, env)
  {
  }

  /** The six fields other than the timestamps depend only on the same six
      fields of the input. */
  lemma {:induction false} NormalizeReadsContent(a: Value, b: Value, env: Env)
    requires !Nullish(a) && !Nullish(b)
    requires Field(a, "id") == Field(b, "id") && Field(a, "title") == Field(b, "title")
    requires Field(a, "body") == Field(b, "body") && Field(a, "tags") == Field(b, "tags")
    requires Field(a, "status") == Field(b, "status") && Field(a, "rating") == Field(b, "rating")
    ensures var ra, rb := NormalizeRecord(a, env).value, NormalizeRecord(b, env).value;
      ra.id == rb.id && ra.title == rb.title && ra.body == rb.body && ra.tags == rb.tags
      && ra.status == rb.status && ra.rating == rb.rating
  {
  }

  /** The shape every normalized record has: truthy id and timestamps, and
      tags that are trimmed and not empty. */
  predicate Canonical(r: Record)
  {
    && Truthy(r.id) && Truthy(r.createdAt) && Truthy(r.updatedAt)
    && forall k :: 0 <= k < |r.tags| ==> r.tags[k] != "" && Trimmed(r.tags[k])
  }

  lemma {:induction false} TrimEachTrimmed(tags: seq<string>)
    ensures forall k :: 0 <= k < |tags| ==> Trimmed(TrimEach(tags)[k])
  {
    forall k | 0 <= k < |tags| ensures Trimmed(TrimEach(tags)[k]) {
      TrimSpec(tags[k]);
    }
  }

  lemma {:induction false} NormalizeTagsClean(tags: Value)
    ensures forall k :: 0 <= k < |NormalizeTags(tags)| ==>
      NormalizeTags(tags)[k] != "" && Trimmed(NormalizeTags(tags)[k])
  {
    if tags.Arr? {
      CleanPieces(StringOfEach(tags.elems));
    } else {
      CleanPieces(Split(ToStr(Or(tags, Str(""))), ','));
    }
  }

  lemma {:induction false} CleanPieces(pieces: seq<string>)
    ensures forall k :: 0 <= k < |NonEmpty(TrimEach(pieces))| ==>
      NonEmpty(TrimEach(pieces))[k] != "" && Trimmed(NonEmpty(TrimEach(pieces))[k])
  {
    TrimEachTrimmed(pieces);
    var trimmed := TrimEach(pieces);
    forall k | 0 <= k < |NonEmpty(trimmed)| ensures Trimmed(NonEmpty(trimmed)[k]) {
      var t := NonEmpty(trimmed)[k];
      assert t in trimmed;
      var j :| 0 <= j < |trimmed| && trimmed[j] == t;
    }
  }

  /** Every record `normalizeRecord` returns is canonical. */
  lemma {:induction false} NormalizeCanonical(raw: Value, env: Env)
    requires ValidEnv(env) && !Nullish(raw)
    ensures Canonical(NormalizeRecord(raw, env).value)
  {
    NormalizeTagsClean(Field(raw, "tags"));
  }

  /** The test `.filter(Boolean)` applies to a string. */
  predicate NotEmptyText(t: string)
  {
    t != ""
  }

  /** `NonEmpty` is `Array.prototype.filter` with that test: the non-empty
      strings, in order, each as often as in `tags`. */
  lemma {:induction false} NonEmptyIsFilter(tags: seq<string>)
    ensures NonEmpty(tags) == Seqs.Filter(tags, NotEmptyText)
    ensures forall t :: multiset(NonEmpty(tags))[t] == if t != "" then multiset(tags)[t] else 0
  {
    if tags != [] {
      NonEmptyIsFilter(tags[1..]);
    }
    forall t {
      Seqs.FilterCount(tags, NotEmptyText, t);
    }
  }

  /** The trimmed strings `normalizeRecord` filters: an array's elements made
      strings, or the pieces of the comma-separated text. */
  function TagPieces(tags: Value): (r: seq<string>)
    ensures forall k :: 0 <= k < |r| ==> Trimmed(r[k])
  {
    var pieces := if tags.Arr? then StringOfEach(tags.elems) else Split(ToStr(Or(tags, Str(""))), ',');
    TrimEachTrimmed(pieces);
    TrimEach(pieces)
  }

  /** Normalizing keeps every non-empty trimmed piece, in order and with its
      repeats, and only those. */
  lemma {:induction false} NormalizeTagsKeeps(tags: Value)
    ensures NormalizeTags(tags) == Seqs.Filter(TagPieces(tags), NotEmptyText)
    ensures forall t :: multiset(NormalizeTags(tags))[t] == if t != "" then multiset(TagPieces(tags))[t] else 0
  {
    NonEmptyIsFilter(TagPieces(tags));
  }

  lemma {:induction false} NonEmptyKeeps(tags: seq<string>)
    requires forall k :: 0 <= k < |tags| ==> tags[k] != ""
    ensures NonEmpty(tags) == tags
  {
    if tags != [] {
      NonEmptyKeeps(tags[1..]);
    }
  }

  lemma {:induction false} CanonicalTagsFixed(tags: seq<string>)
    requires forall k :: 0 <= k < |tags| ==> tags[k] != "" && Trimmed(tags[k])
    ensures NormalizeTags(Arr(TagValues(tags))) == tags
  {
    var strings := StringOfEach(TagValues(tags));
    assert strings == tags;
    TrimEachFixed(tags);
    NonEmptyKeeps(tags);
  }

  /** `normalizeRecord` leaves a canonical record as it is, and then does not
      consult `uuid()` or `nowIso()`. */
  lemma {:induction false} NormalizeFixesCanonical(r: Record, env: Env)
    requires Canonical(r)
    ensures NormalizeRecord(ToValue(r), env) == Ok(r)
  {
    var v := ToValue(r);
    ToValueFields(r);
    CanonicalTagsFixed(r.tags);
    NormalizeFromFields(r, env);
  }

  /** The eight fields of a record with a truthy id and timestamps
      normalize back to that record. */
  lemma {:induction false} NormalizeFromFields(r: Record, env: Env)
    requires Truthy(r.id) && Truthy(r.createdAt) && Truthy(r.updatedAt)
    requires NormalizeTags(Arr(TagValues(r.tags))) == r.tags
    ensures NormalizeFields(r.id, Str(r.title), Str(r.body), Arr(TagValues(r.tags)), Str(StatusName(r.status)),
                            Num(r.rating), r.createdAt, r.updatedAt, env) == r
  {
    StatusNameRead(r.status);
    StrOrEmpty(r.title);
    StrOrEmpty(r.body);
  }

  lemma {:induction false} StatusNameRead(s: Status)
    ensures StrictEquals(Str(StatusName(s)), Str("archived")) <==> s == Archived
  {
    if s == Active {
      assert StatusName(s)[1] != "archived"[1];
    }
  }

  /** `normalizeRecord` is idempotent. */
  lemma {:induction false} NormalizeIdempotent(raw: Value, env: Env, env2: Env)
    requires ValidEnv(env) && !Nullish(raw)
    ensures NormalizeRecord(ToValue(NormalizeRecord(raw, env).value), env2) == NormalizeRecord(raw, env)
  {
    NormalizeCanonical(raw, env);
    NormalizeFixesCanonical(NormalizeRecord(raw, env).value, env2);
  }

  /** The status is archived exactly when `raw.status` is the string
      "archived"; anything else, missing included, is active. */
  lemma {:induction false} NormalizeStatus(raw: Value, env: Env)
    requires !Nullish(raw)
    ensures NormalizeRecord(raw, env).value.status == Archived <==> Member(raw, "status") == Ok(Str("archived"))
  {
  }

  /** A falsy id or timestamp is replaced by a fresh one; a truthy one is
      kept. */
  lemma {:induction false} NormalizeFallbacks(raw: Value, env: Env)
    requires !Nullish(raw)
    ensures var r := NormalizeRecord(raw, env).value;
      && (Truthy(Member(raw, "id").value) ==> r.id == Member(raw, "id").value)
      && (!Truthy(Member(raw, "id").value) ==> r.id == Str(env.uuid))
      && (Truthy(Member(raw, "createdAt").value) ==> r.createdAt == Member(raw, "createdAt").value)
      && (!Truthy(Member(raw, "createdAt").value) ==> r.createdAt == Str(env.createdNow))
      && (Truthy(Member(raw, "updatedAt").value) ==> r.updatedAt == Member(raw, "updatedAt").value)
      && (!Truthy(Member(raw, "updatedAt").value) ==> r.updatedAt == Str(env.updatedNow))
  {
  }

  // ---- validateRecord ----

  const TitleRequired := "Title is required."

  /** `validateRecord(record)`: the message when the title is falsy or blank,
      null otherwise. Reading the title of null or undefined throws, and so
      does calling `trim` on a truthy title that is not a string. */
  function ValidateRecord(record: Value): (r: Outcome<Option<string>>)
    ensures Nullish(record) ==> r.Throws?
  {
    match Member(record, "title")
    case Throws => Throws
    case Ok(title) =>
      if !Truthy(title) then Ok(Some(TitleRequired))
      else if !title.Str? then Throws
      else if Trim(title.s) == "" then Ok(Some(TitleRequired))
      else Ok(None)
  }

  /** On a record the check never throws, and it reports the message exactly
      when the title is white space only. */
  lemma {:induction false} ValidateRecordSpec(r: Record)
    ensures ValidateRecord(ToValue(r)).Ok?
    ensures ValidateRecord(ToValue(r)) == Ok(Some(TitleRequired)) <==> Blank(r.title)
    ensures ValidateRecord(ToValue(r)) != Ok(Some(TitleRequired)) ==> ValidateRecord(ToValue(r)) == Ok(None)
  {
    ToValueFields(r);
    BlankIffTrimsEmpty(r.title);
    ValidateStringTitle(ToValue(r), r.title);
  }

  lemma {:induction false} ValidateStringTitle(record: Value, title: string)
    requires Member(record, "title") == Ok(Str(title))
    ensures ValidateRecord(record) == if title == [] || Trim(title) == "" then Ok(Some(TitleRequired)) else Ok(None)
  {
  }
}
