/** src/list.js: the virtual list. Only the rows near the viewport are
    rendered; a spacer of the full height keeps the scroll bar honest. The
    scroll offset and the viewport height are whole pixels here. */
module VirtualList {
  import Text
  import opened JsValue
  import opened Model
  import App
  import Seqs

  const RowHeight: nat := 72
  const Buffer: nat := 6
  /** The list size from which the "large list" indicator shows. */
  const LargeList: nat := 10000

  /** `Math.floor(a / b)` and `Math.ceil(a / b)` for whole numbers. */
  function FloorDiv(a: nat, b: nat): nat
    requires b > 0
  {
    a / b
  }

  function CeilDiv(a: nat, b: nat): (r: nat)
    requires b > 0
    ensures b * (r - 1) < a <= b * r
  {
    (a + b - 1) / b
  }

  /** `Math.max(0, Math.floor(scrollTop / ROW_HEIGHT) - BUFFER)` */
  function StartIndex(scrollTop: nat): nat
  {
    if FloorDiv(scrollTop, RowHeight) >= Buffer then FloorDiv(scrollTop, RowHeight) - Buffer else 0
  }

  /** `Math.min(records.length, Math.ceil((scrollTop + height) / ROW_HEIGHT) + BUFFER)` */
  function EndIndex(count: nat, scrollTop: nat, height: nat): (r: nat)
    ensures r <= count
  {
    var e := CeilDiv(scrollTop + height, RowHeight) + Buffer;
    if count < e then count else e
  }

  /** `records.slice(start, end)`: both ends clamped to the length, empty when
      they cross. */
  function Slice<T>(s: seq<T>, start: nat, end: nat): (r: seq<T>)
    ensures start <= end <= |s| ==> r == s[start..end]
    ensures end <= start ==> r == []
  {
    var a := if start < |s| then start else |s|;
    var b := if end < |s| then end else |s|;
    if a < b then s[a..b] else []
  }

  /** While the viewport starts inside the list the window is well formed. */
  lemma {:induction false} WindowOrdered(count: nat, scrollTop: nat, height: nat)
    requires scrollTop <= count * RowHeight
    ensures StartIndex(scrollTop) <= EndIndex(count, scrollTop, height)
  {
    assert FloorDiv(scrollTop, RowHeight) <= count;
    assert FloorDiv(scrollTop, RowHeight) <= CeilDiv(scrollTop + height, RowHeight);
  }

  /** Every row whose band of pixels meets the viewport is rendered. */
  lemma {:induction false} WindowCovers(count: nat, scrollTop: nat, height: nat, i: nat)
    requires i < count
    requires RowHeight * i < scrollTop + height && scrollTop < RowHeight * i + RowHeight
    ensures StartIndex(scrollTop) <= i < EndIndex(count, scrollTop, height)
  {
    assert FloorDiv(scrollTop, RowHeight) <= i;
    var c := CeilDiv(scrollTop + height, RowHeight);
    assert RowHeight * i < RowHeight * c;
  }

  lemma {:induction false} CeilOfSum(s: nat, h: nat)
    ensures CeilDiv(s + h, RowHeight) <= FloorDiv(s, RowHeight) + CeilDiv(h, RowHeight) + 1
  {
    var q, c := FloorDiv(s, RowHeight), CeilDiv(h, RowHeight);
    assert s < RowHeight * q + RowHeight;
    assert h <= RowHeight * c;
    assert s + h <= RowHeight * (q + c + 1);
    var e := CeilDiv(s + h, RowHeight);
    assert RowHeight * (e as int - 1) < RowHeight * (q + c + 1);
  }

  /** At most `ceil(height / ROW_HEIGHT) + 1 + 2 * BUFFER` rows are
      rendered. */
  lemma {:induction false} WindowSize(count: nat, scrollTop: nat, height: nat)
    ensures EndIndex(count, scrollTop, height) - StartIndex(scrollTop)
         <= CeilDiv(height, RowHeight) + 1 + 2 * Buffer
  {
    CeilOfSum(scrollTop, height);
  }

  /** The window of the worked example: 10000 rows, scrolled to 720 in a
      viewport of 600. */
  lemma {:induction false} WindowExample()
    ensures StartIndex(720) == 4 && EndIndex(10000, 720, 600) == 25
  {
  }

  /** The rows `renderList` writes, each marked active when its id is
      `selectedId`. */
  method MarkRows(visible: seq<Record>, selectedId: Value) returns (items: seq<(Record, bool)>)
    ensures |items| == |visible|
    ensures forall k :: 0 <= k < |visible| ==> items[k] == (visible[k], StrictEquals(visible[k].id, selectedId))
  {
    items := [];
    var k := 0;
    while k < |visible|
      invariant 0 <= k <= |visible|
      invariant |items| == k
      invariant forall j :: 0 <= j < k ==> items[j] == (visible[j], StrictEquals(visible[j].id, selectedId))
    {
      items := items + [(visible[k], StrictEquals(visible[k].id, selectedId))];
      k := k + 1;
    }
  }

  /** The list view: the closure variables `records` and `selectedId`, and
      what `renderList` and `renderDetail` last wrote to the page. */
  class ListView {
    var records: seq<Record>
    var selectedId: Value
    /** `spacer.style.height`, in pixels. */
    var spacerHeight: nat
    /** The `translateY` of the rendered rows, in pixels. */
    var offset: nat
    /** The rendered rows, each with whether it is marked active. */
    var rendered: seq<(Record, bool)>
    var countText: string
    var indicatorHidden: bool
    /** The record in the detail panel; `None` shows the empty panel. */
    var detail: Option<Record>
    /** The values of the tag filter's options. */
    var tagOptions: seq<string>

    constructor()
      ensures records == [] && selectedId == Null && rendered == [] && tagOptions == []
    {
      records := [];
      selectedId := Null;
      spacerHeight := 0;
      offset := 0;
      rendered := [];
      countText := "";
      indicatorHidden := true;
      detail := None;
      tagOptions := [];
    }

    /** `renderList()` for the given scroll position and viewport height. */
    method RenderList(scrollTop: nat, height: nat)
      modifies this
      ensures records == old(records) && selectedId == old(selectedId)
      ensures spacerHeight == |records| * RowHeight
      ensures offset == StartIndex(scrollTop) * RowHeight
      ensures var rows := Slice(records, StartIndex(scrollTop), EndIndex(|records|, scrollTop, height));
        |rendered| == |rows| &&
        forall k :: 0 <= k < |rows| ==> rendered[k] == (rows[k], StrictEquals(rows[k].id, selectedId))
      ensures countText == Text.NatToString(|records|)
      ensures indicatorHidden <==> |records| < LargeList
      ensures detail == old(detail) && tagOptions == old(tagOptions)
    {
      spacerHeight := |records| * RowHeight;
      var startIndex := StartIndex(scrollTop);
      var endIndex := EndIndex(|records|, scrollTop, height);
      var visible := Slice(records, startIndex, endIndex);
      offset := startIndex * RowHeight;
      rendered := MarkRows(visible, selectedId);
      countText := Text.NatToString(|records|);
      indicatorHidden := |records| < LargeList;
    }

    /** `update({ records, selectedId, tags })`. The tag options are rebuilt
        as "" followed by the tags only when their number differs from the
        size of the set of "" and the tags. */
    method Update(nextRecords: seq<Record>, nextSelectedId: Value, tags: seq<string>, scrollTop: nat, height: nat)
      modifies this
      ensures records == nextRecords && selectedId == nextSelectedId
      ensures spacerHeight == |records| * RowHeight
      ensures offset == StartIndex(scrollTop) * RowHeight
      ensures var rows := Slice(records, StartIndex(scrollTop), EndIndex(|records|, scrollTop, height));
        |rendered| == |rows| &&
        forall k :: 0 <= k < |rows| ==> rendered[k] == (rows[k], StrictEquals(rows[k].id, selectedId))
      ensures countText == Text.NatToString(|records|)
      ensures indicatorHidden <==> |records| < LargeList
      ensures detail == App.Find(records, selectedId)
      ensures tagOptions == if |old(tagOptions)| != |Seqs.Added([""] + tags)| then [""] + tags else old(tagOptions)
    {
      records := nextRecords;
      selectedId := nextSelectedId;
      RenderList(scrollTop, height);
      detail := App.Find(records, selectedId);
      var existing := Seqs.Added([""] + tags);
      if |tagOptions| != |existing| {
        tagOptions := [""] + tags;
      }
    }
  }
}
