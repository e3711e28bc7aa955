/** src/dashboard.js: the aggregates `updateDashboard` shows for the
    records: the counts by status, the ten most used tags, the histogram
    of ratings and the ten most recently updated records. */
module Dashboard {
  import opened JsValue
  import opened Model
  import opened Sorting
  import opened Seqs
  import App
  import Utils

  // ---- counts ----

  predicate IsActive(r: Record)
  {
    r.status == Active
  }

  /** `records.filter((record) => record.status === "active").length` */
  function ActiveCount(records: seq<Record>): (n: nat)
    ensures n <= |records|
  {
    |Filter(records, IsActive)|
  }

  /** `total - active`: every record that is not active counts as
      archived. */
  lemma {:induction false} ArchivedCount(records: seq<Record>)
    ensures |records| - ActiveCount(records) == |Filter(records, (r: Record) => r.status == Archived)|
  {
    FilterSplit(records, IsActive, (r: Record) => r.status == Archived);
  }

  lemma {:induction false} FilterSplit<T>(s: seq<T>, p: T -> bool, q: T -> bool)
    requires forall x :: q(x) <==> !p(x)
    ensures |Filter(s, p)| + |Filter(s, q)| == |s|
  {
    if s != [] {
      FilterSplit(s[1..], p, q);
    }
  }

  // ---- tag counts ----

  /** The entries of the `tagCounts` map, in insertion order. */
  type Counts = seq<(string, nat)>

  function CountKeys(counts: Counts): (r: seq<string>)
    ensures |r| == |counts| && forall i :: 0 <= i < |counts| ==> r[i] == counts[i].0
  {
    seq(|counts|, i requires 0 <= i < |counts| => counts[i].0)
  }

  /** `tagCounts.get(tag) || 0` */
  function CountOf(counts: Counts, t: string): nat
  {
    if counts == [] then 0 else if counts[0].0 == t then counts[0].1 else CountOf(counts[1..], t)
  }

  /** `tagCounts.set(tag, (tagCounts.get(tag) || 0) + 1)`: a key already in
      the map keeps its place. */
  function Bump(counts: Counts, t: string): Counts
  {
    if counts == [] then [(t, 1)]
    else if counts[0].0 == t then [(t, counts[0].1 + 1)] + counts[1..]
    else [counts[0]] + Bump(counts[1..], t)
  }

  /** The map after counting `tags` in order. */
  function Tally(tags: seq<string>): Counts
  {
    if tags == [] then [] else Bump(Tally(tags[..|tags| - 1]), tags[|tags| - 1])
  }

  lemma {:induction false} BumpKeys(counts: Counts, t: string)
    ensures CountKeys(Bump(counts, t)) == if t in CountKeys(counts) then CountKeys(counts) else CountKeys(counts) + [t]
  {
    if counts != [] {
      assert CountKeys(counts) == [counts[0].0] + CountKeys(counts[1..]);
      if counts[0].0 != t {
        BumpKeys(counts[1..], t);
        assert CountKeys(Bump(counts, t)) == [counts[0].0] + CountKeys(Bump(counts[1..], t));
      } else {
        assert CountKeys(Bump(counts, t)) == [t] + CountKeys(counts[1..]);
      }
    }
  }

  lemma {:induction false} BumpCount(counts: Counts, t: string, u: string)
    ensures CountOf(Bump(counts, t), u) == CountOf(counts, u) + if u == t then 1 else 0
  {
    if counts != [] && counts[0].0 != t {
      BumpCount(counts[1..], t, u);
    }
  }

  /** The map's keys are the tags, each once, in order of first use. */
  lemma {:induction false} TallyKeys(tags: seq<string>)
    ensures CountKeys(Tally(tags)) == Added(tags)
  {
    if tags != [] {
      TallyKeys(tags[..|tags| - 1]);
      BumpKeys(Tally(tags[..|tags| - 1]), tags[|tags| - 1]);
    }
  }

  /** Each tag's count is its number of occurrences, duplicates within a
      record included. */
  lemma {:induction false} TallyCount(tags: seq<string>, u: string)
    ensures CountOf(Tally(tags), u) == multiset(tags)[u]
  {
    if tags != [] {
      var init := tags[..|tags| - 1];
      TallyCount(init, u);
      BumpCount(Tally(init), tags[|tags| - 1], u);
      assert tags == init + [tags[|tags| - 1]];
    }
  }

  /** The nested `forEach` loops that fill `tagCounts`. */
  method CountTags(records: seq<Record>) returns (counts: Counts)
    ensures counts == Tally(FlatMap(records, Utils.TagsOf))
  {
    counts := [];
    var i := 0;
    while i < |records|
      invariant 0 <= i <= |records|
      invariant counts == Tally(FlatMap(records[..i], Utils.TagsOf))
    {
      counts := BumpEach(counts, FlatMap(records[..i], Utils.TagsOf), records[i].tags);
      FlatMapSnoc(records, i, Utils.TagsOf);
      i := i + 1;
    }
    assert records[..i] == records;
  }

  /** The inner `forEach` over one record's tags, on counts that hold the
      tags `before` it. */
  method BumpEach(counts0: Counts, before: seq<string>, tags: seq<string>) returns (counts: Counts)
    requires counts0 == Tally(before)
    ensures counts == Tally(before + tags)
  {
    counts := counts0;
    var j := 0;
    assert before + tags[..0] == before;
    while j < |tags|
      invariant 0 <= j <= |tags|
      invariant counts == Tally(before + tags[..j])
    {
      TallyStep(before, tags, j);
      counts := Bump(counts, tags[j]);
      j := j + 1;
    }
    assert tags[..j] == tags;
  }

  lemma {:induction false} TallyStep(before: seq<string>, tags: seq<string>, j: int)
    requires 0 <= j < |tags|
    ensures Tally(before + tags[..j + 1]) == Bump(Tally(before + tags[..j]), tags[j])
  {
    assert (before + tags[..j + 1])[..|before| + j] == before + tags[..j];
  }

  // ---- top tags ----

  /** The comparator `(a, b) => b[1] - a[1]`: larger counts first. */
  function ByCountDesc(): (Counts0, Counts0) -> bool
  {
    (a: Counts0, b: Counts0) => a.1 >= b.1
  }

  type Counts0 = (string, nat)

  lemma {:induction false} ByCountDescPreorder()
    ensures TotalPreorder(ByCountDesc())
  {
  }

  /** `s.slice(0, n)` */
  function Take<T>(s: seq<T>, n: nat): (r: seq<T>)
    ensures |r| <= n && r <= s
    ensures |s| <= n ==> r == s
    ensures |s| > n ==> r == s[..n]
  {
    if |s| <= n then s else s[..n]
  }

  /** The ten entries with the largest counts. */
  function TopTags(records: seq<Record>): (r: seq<(string, nat)>)
    ensures var used := |Added(FlatMap(records, Utils.TagsOf))|;
      |r| == if used <= 10 then used else 10
  {
    var tags := FlatMap(records, Utils.TagsOf);
    TallyKeys(tags);
    SortPermutation(Tally(tags), ByCountDesc());
    assert |Sort(Tally(tags), ByCountDesc())| == |multiset(Tally(tags))|;
    Take(Sort(Tally(tags), ByCountDesc()), 10)
  }

  /** At most ten entries, counts non-increasing; a listed entry holds a
      used tag with its number of occurrences; with ten tags or fewer every
      used tag is listed once; no records give no tags. */
  lemma {:induction false} TopTagsSpec(records: seq<Record>, t: string, c: nat)
    ensures var top := TopTags(records);
      && |top| <= 10
      && (forall i, j :: 0 <= i < j < |top| ==> top[i].1 >= top[j].1)
      && ((t, c) in top ==> c == multiset(FlatMap(records, Utils.TagsOf))[t] && c >= 1)
      && (|Added(FlatMap(records, Utils.TagsOf))| <= 10 ==>
            multiset(top)[(t, c)] == if t in FlatMap(records, Utils.TagsOf) && c == multiset(FlatMap(records, Utils.TagsOf))[t] then 1 else 0)
      && (records == [] ==> top == [])
  {
    TopTagsSorted(records);
    TopTagsEntries(records, t, c);
  }

  lemma {:induction false} TopTagsSorted(records: seq<Record>)
    ensures forall i, j :: 0 <= i < j < |TopTags(records)| ==> TopTags(records)[i].1 >= TopTags(records)[j].1
    ensures records == [] ==> TopTags(records) == []
  {
    var counts := Tally(FlatMap(records, Utils.TagsOf));
    var sorted := Sort(counts, ByCountDesc());
    ByCountDescPreorder();
    SortSorted(counts, ByCountDesc());
    SortPermutation(counts, ByCountDesc());
    assert TopTags(records) <= sorted;
  }

  lemma {:induction false} TopTagsEntries(records: seq<Record>, t: string, c: nat)
    ensures var top, tags := TopTags(records), FlatMap(records, Utils.TagsOf);
      && ((t, c) in top ==> t in tags && c == multiset(tags)[t])
      && (|Added(tags)| <= 10 ==> multiset(top)[(t, c)] == if t in tags && c == multiset(tags)[t] then 1 else 0)
  {
    var tags := FlatMap(records, Utils.TagsOf);
    var counts := Tally(tags);
    var sorted := Sort(counts, ByCountDesc());
    SortPermutation(counts, ByCountDesc());
    TallyKeys(tags);
    TallyEntry(tags, t, c);
    if (t, c) in TopTags(records) {
      assert (t, c) in multiset(sorted);
    }
  }

  /** A tag left out of the top list does not outrank any listed one:
      ten are listed and its count is at most the tenth. */
  lemma {:induction false} TopTagsComplete(records: seq<Record>, t: string)
    requires t in FlatMap(records, Utils.TagsOf)
    requires forall i :: 0 <= i < |TopTags(records)| ==> TopTags(records)[i].0 != t
    ensures |TopTags(records)| == 10 && multiset(FlatMap(records, Utils.TagsOf))[t] <= TopTags(records)[9].1
  {
    var tags := FlatMap(records, Utils.TagsOf);
    var counts := Tally(tags);
    var sorted := Sort(counts, ByCountDesc());
    var e := (t, multiset(tags)[t]);
    TallyEntry(tags, t, e.1);
    ByCountDescPreorder();
    SortSorted(counts, ByCountDesc());
    SortPermutation(counts, ByCountDesc());
    assert e in multiset(sorted);
    var i :| 0 <= i < |sorted| && sorted[i] == e;
    assert i >= |TopTags(records)| by {
      assert TopTags(records) <= sorted;
    }
    assert TopTags(records) == sorted[..10];
    assert ByCountDesc()(sorted[9], sorted[i]);
  }

  /** An entry is in the map exactly when its tag occurs and its count is
      the number of occurrences; the map holds it at most once. */
  lemma {:induction false} TallyEntry(tags: seq<string>, t: string, c: nat)
    ensures multiset(Tally(tags))[(t, c)] == if t in tags && c == multiset(tags)[t] then 1 else 0
  {
    var counts := Tally(tags);
    TallyKeys(tags);
    AddedDistinct(tags);
    EntryCount(counts, t, c);
    TallyCount(tags, t);
    AddedOnce(tags, t);
    assert t in CountKeys(counts) <==> t in tags by {
      assert t in CountKeys(counts) <==> t in multiset(Added(tags));
    }
  }

  /** In a map whose keys are distinct, an entry occurs once when it holds
      the key's count and not at all otherwise. */
  lemma {:induction false} EntryCount(counts: Counts, t: string, c: nat)
    requires Distinct(CountKeys(counts))
    ensures multiset(counts)[(t, c)]
         == if t in CountKeys(counts) && c == CountOf(counts, t) then 1 else 0
  {
    if counts != [] {
      var rest := counts[1..];
      DistinctKeysTail(counts);
      EntryCount(rest, t, c);
      MultisetCons(counts, (t, c));
      if counts[0].0 == t {
        KeyAbsentCount(rest, t, c);
      }
    }
  }

  lemma {:induction false} DistinctKeysTail(counts: Counts)
    requires counts != [] && Distinct(CountKeys(counts))
    ensures Distinct(CountKeys(counts[1..])) && counts[0].0 !in CountKeys(counts[1..])
  {
    var rest := counts[1..];
    forall i, j | 0 <= i < j < |CountKeys(rest)| ensures CountKeys(rest)[i] != CountKeys(rest)[j] {
      assert CountKeys(rest)[i] == CountKeys(counts)[i + 1];
      assert CountKeys(rest)[j] == CountKeys(counts)[j + 1];
    }
    forall i | 0 <= i < |CountKeys(rest)| ensures CountKeys(rest)[i] != counts[0].0 {
      assert CountKeys(rest)[i] == CountKeys(counts)[i + 1];
    }
  }

  lemma {:induction false} KeyAbsentCount(counts: Counts, t: string, c: nat)
    requires t !in CountKeys(counts)
    ensures multiset(counts)[(t, c)] == 0
  {
    if counts != [] {
      assert CountKeys(counts) == [counts[0].0] + CountKeys(counts[1..]);
      KeyAbsentCount(counts[1..], t, c);
      assert counts == [counts[0]] + counts[1..];
    }
  }

  /** Ties keep the order in which the tags were first used. */
  lemma {:induction false} TopTagsStable(records: seq<Record>, e: (string, nat))
    ensures EquivalentTo(Sort(Tally(FlatMap(records, Utils.TagsOf)), ByCountDesc()), e, ByCountDesc())
         == EquivalentTo(Tally(FlatMap(records, Utils.TagsOf)), e, ByCountDesc())
  {
    ByCountDescPreorder();
    SortStable(Tally(FlatMap(records, Utils.TagsOf)), e, ByCountDesc());
  }

  // ---- ratings ----

  /** `records.filter((record) => record.rating === rating).length` */
  function RatingCount(records: seq<Record>, rating: int): nat
  {
    |Filter(records, (r: Record) => r.rating == Int(rating))|
  }

  /** The six bars of the histogram, for the ratings 0 to 5. */
  function Histogram(records: seq<Record>): (h: seq<nat>)
    ensures |h| == 6 && forall i :: 0 <= i < 6 ==> h[i] == RatingCount(records, i)
  {
    seq(6, i requires 0 <= i < 6 => RatingCount(records, i))
  }

  predicate InRange(r: Record)
  {
    r.rating.Int? && 0 <= r.rating.i <= 5
  }

  /** The sum of the six bars. */
  function Sum(h: seq<nat>): nat
    requires |h| == 6
  {
    h[0] + h[1] + h[2] + h[3] + h[4] + h[5]
  }

  lemma {:induction false} RatingCountStep(records: seq<Record>, i: int)
    requires records != []
    ensures RatingCount(records, i) == (if records[0].rating == Int(i) then 1 else 0) + RatingCount(records[1..], i)
  {
  }

  lemma {:induction false} HistogramStep(records: seq<Record>)
    requires records != []
    ensures Sum(Histogram(records)) == (if InRange(records[0]) then 1 else 0) + Sum(Histogram(records[1..]))
  {
    RatingCountStep(records, 0);
    RatingCountStep(records, 1);
    RatingCountStep(records, 2);
    RatingCountStep(records, 3);
    RatingCountStep(records, 4);
    RatingCountStep(records, 5);
  }

  /** The bars count every record rated 0 to 5 once and no other. */
  lemma {:induction false} HistogramTotal(records: seq<Record>)
    ensures Sum(Histogram(records)) == |Filter(records, InRange)|
  {
    if records != [] {
      HistogramStep(records);
      HistogramTotal(records[1..]);
    }
  }

  /** The bars sum to at most the total, with equality exactly when every
      rating is an integer from 0 to 5. */
  lemma {:induction false} HistogramSum(records: seq<Record>)
    ensures Sum(Histogram(records)) <= |records|
    ensures Sum(Histogram(records)) == |records| <==> forall k :: 0 <= k < |records| ==> InRange(records[k])
  {
    HistogramTotal(records);
    if forall k :: 0 <= k < |records| ==> InRange(records[k]) {
      FilterAll(records, InRange);
    } else {
      var k :| 0 <= k < |records| && !InRange(records[k]);
      FilterMember(records, InRange, records[k]);
      FilterShorter(records, InRange, k);
    }
  }

  lemma {:induction false} FilterShorter<T>(s: seq<T>, keep: T -> bool, k: int)
    requires 0 <= k < |s| && !keep(s[k])
    ensures |Filter(s, keep)| < |s|
  {
    if k > 0 {
      FilterShorter(s[1..], keep, k - 1);
    }
  }

  // ---- recent ----

  /** `[...records].sort((a, b) => b.updatedAt.localeCompare(a.updatedAt)).slice(0, 10)` */
  function Recent(records: seq<Record>, le: (string, string) -> bool): (r: seq<Record>)
    ensures |r| <= 10
    ensures forall i :: 0 <= i < |r| ==> r[i] in records
  {
    var sorted := Sort(records, Flip(ByKey(le, App.UpdatedKey)));
    SortPermutation(records, Flip(ByKey(le, App.UpdatedKey)));
    var r := Take(sorted, 10);
    assert forall i :: 0 <= i < |r| ==> r[i] == sorted[i] && sorted[i] in multiset(records);
    r
  }

  /** At most ten records, latest update first, each one of the records;
      when there are at most ten, all of them; none without records. */
  lemma {:induction false} RecentSpec(records: seq<Record>, le: (string, string) -> bool, x: Record)
    requires TotalPreorder(le)
    ensures var recent := Recent(records, le);
      && |recent| <= 10
      && (forall i, j :: 0 <= i < j < |recent| ==> le(App.UpdatedKey(recent[j]), App.UpdatedKey(recent[i])))
      && multiset(recent)[x] <= multiset(records)[x]
      && (|records| <= 10 ==> multiset(recent) == multiset(records))
      && (records == [] ==> recent == [])
  {
    var order := Flip(ByKey(le, App.UpdatedKey));
    var sorted := Sort(records, order);
    ByKeyPreorder(le, App.UpdatedKey);
    FlipPreorder(ByKey(le, App.UpdatedKey));
    SortSorted(records, order);
    SortPermutation(records, order);
    var recent := Recent(records, le);
    assert sorted == recent + sorted[|recent|..];
    assert multiset(sorted) == multiset(recent) + multiset(sorted[|recent|..]);
  }

  /** A record left out of the recent list (fewer of its copies listed
      than there are) was updated no later than any listed one: ten are
      listed, each updated at or after it. */
  lemma {:induction false} RecentComplete(records: seq<Record>, le: (string, string) -> bool, x: Record)
    requires TotalPreorder(le)
    requires multiset(Recent(records, le))[x] < multiset(records)[x]
    ensures |Recent(records, le)| == 10
    ensures forall i :: 0 <= i < 10 ==> le(App.UpdatedKey(x), App.UpdatedKey(Recent(records, le)[i]))
  {
    var order := Flip(ByKey(le, App.UpdatedKey));
    var sorted := Sort(records, order);
    ByKeyPreorder(le, App.UpdatedKey);
    FlipPreorder(ByKey(le, App.UpdatedKey));
    SortSorted(records, order);
    SortPermutation(records, order);
    var recent := Recent(records, le);
    assert |records| > 10;
    assert recent == sorted[..10];
    assert sorted == recent + sorted[10..];
    assert multiset(sorted) == multiset(recent) + multiset(sorted[10..]);
    assert x in multiset(sorted[10..]);
    var m :| 0 <= m < |sorted[10..]| && sorted[10..][m] == x;
    assert sorted[10 + m] == x;
    forall i | 0 <= i < 10 ensures le(App.UpdatedKey(x), App.UpdatedKey(recent[i])) {
      assert order(sorted[i], sorted[10 + m]);
    }
  }

  // ---- the dashboard ----

  datatype Stats = Stats(
    total: nat, active: nat, archived: nat,
    topTags: seq<(string, nat)>, ratings: seq<nat>, recent: seq<Record>)

  /** Everything `updateDashboard` computes for the records. */
  function Summary(records: seq<Record>, le: (string, string) -> bool): (s: Stats)
    ensures s.total == |records| && s.active + s.archived == s.total
  {
    Stats(|records|, ActiveCount(records), |records| - ActiveCount(records),
          TopTags(records), Histogram(records), Recent(records, le))
  }
}
