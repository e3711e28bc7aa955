/** `Array.prototype.filter`, and the contents of a `Set` filled from a
    list: list operations shared by several modules. */
module Seqs {

  /** `s.filter(keep)`: the elements that pass, in their order in `s`. */
  function Filter<T>(s: seq<T>, keep: T -> bool): (r: seq<T>)
    ensures |r| <= |s|
  {
    if s == [] then [] else (if keep(s[0]) then [s[0]] else []) + Filter(s[1..], keep)
  }

  /** An element is kept exactly when it is in `s` and passes the test. */
  lemma {:induction false} FilterMember<T>(s: seq<T>, keep: T -> bool, x: T)
    ensures x in Filter(s, keep) <==> x in s && keep(x)
  {
    if s != [] {
      FilterMember(s[1..], keep, x);
      assert x in s <==> x == s[0] || x in s[1..];
    }
  }

  /** Each element passing the test is kept as often as it occurs in `s`,
      and no other element is kept. */
  lemma {:induction false} FilterCount<T>(s: seq<T>, keep: T -> bool, x: T)
    ensures multiset(Filter(s, keep))[x] == if keep(x) then multiset(s)[x] else 0
  {
    if s != [] {
      FilterCount(s[1..], keep, x);
      MultisetCons(s, x);
      var head := if keep(s[0]) then [s[0]] else [];
      assert multiset(Filter(s, keep)) == multiset(head) + multiset(Filter(s[1..], keep));
    }
  }

  /** A filter that keeps everything returns the list itself. */
  lemma {:induction false} FilterAll<T>(s: seq<T>, keep: T -> bool)
    requires forall k :: 0 <= k < |s| ==> keep(s[k])
    ensures Filter(s, keep) == s
  {
    if s != [] {
      FilterAll(s[1..], keep);
    }
  }

  lemma {:induction false} FilterAppend<T>(a: seq<T>, b: seq<T>, keep: T -> bool)
    ensures Filter(a + b, keep) == Filter(a, keep) + Filter(b, keep)
  {
    if a != [] {
      assert (a + b)[1..] == a[1..] + b;
      FilterAppend(a[1..], b, keep);
    } else {
      assert a + b == b;
    }
  }

  /** The contents of a `Set` after adding `xs` in order, in the set's
      insertion order, which is the order `Array.from` lists them in. */
  function Added<T(==)>(xs: seq<T>): seq<T>
  {
    if xs == [] then []
    else
      var seen := Added(xs[..|xs| - 1]);
      if xs[|xs| - 1] in seen then seen else seen + [xs[|xs| - 1]]
  }

  /** A `Set` holds each added value exactly once. */
  lemma {:induction false} AddedOnce<T>(xs: seq<T>, x: T)
    ensures multiset(Added(xs))[x] == if x in xs then 1 else 0
  {
    if xs != [] {
      var init := xs[..|xs| - 1];
      AddedOnce(init, xs[|xs| - 1]);
      AddedOnce(init, x);
      assert xs == init + [xs[|xs| - 1]];
    }
  }

  /** The index of the first occurrence of `x` in `xs`. */
  function FirstIndex<T(==)>(xs: seq<T>, x: T): (r: nat)
    requires x in xs
    ensures r < |xs| && xs[r] == x && x !in xs[..r]
  {
    if xs[0] == x then 0
    else
      var r := FirstIndex(xs[1..], x) + 1;
      assert xs[..r] == [xs[0]] + xs[1..][..r - 1];
      r
  }

  lemma {:induction false} FirstIndexOfPrefix<T>(xs: seq<T>, init: seq<T>, x: T)
    requires init <= xs && x in init
    ensures FirstIndex(xs, x) == FirstIndex(init, x)
  {
    var i, j := FirstIndex(xs, x), FirstIndex(init, x);
    assert xs[..j] == init[..j];
    assert xs[j] == x;
    assert i <= j by {
      assert forall k :: 0 <= k < i ==> xs[..i][k] == xs[k];
    }
  }

  /** The set lists its values in the order of their first occurrence in
      `xs`. */
  lemma {:induction false} AddedInFirstOrder<T>(xs: seq<T>, i: int, j: int)
    requires 0 <= i < j < |Added(xs)|
    ensures Added(xs)[i] in xs && Added(xs)[j] in xs
    ensures FirstIndex(xs, Added(xs)[i]) < FirstIndex(xs, Added(xs)[j])
  {
    AddedOnce(xs, Added(xs)[i]);
    AddedOnce(xs, Added(xs)[j]);
    var init := xs[..|xs| - 1];
    var last := xs[|xs| - 1];
    var a, b := Added(xs)[i], Added(xs)[j];
    AddedOnce(init, a);
    AddedOnce(init, b);
    if j < |Added(init)| {
      AddedInFirstOrder(init, i, j);
      FirstIndexOfPrefix(xs, init, a);
      FirstIndexOfPrefix(xs, init, b);
    } else {
      assert b == last && last !in init;
      assert a == Added(init)[i];
      FirstIndexOfPrefix(xs, init, a);
      assert FirstIndex(xs, b) == |init| by {
        assert xs[..|init|] == init;
      }
    }
  }

  predicate Distinct<T(==)>(s: seq<T>)
  {
    forall i, j :: 0 <= i < j < |s| ==> s[i] != s[j]
  }

  /** A `Set` lists no value twice. */
  lemma {:induction false} AddedDistinct<T>(xs: seq<T>)
    ensures Distinct(Added(xs))
  {
    if xs != [] {
      AddedDistinct(xs[..|xs| - 1]);
    }
  }

  /** Filtering a list without repetitions leaves none. */
  lemma {:induction false} FilterDistinct<T>(s: seq<T>, keep: T -> bool)
    requires Distinct(s)
    ensures Distinct(Filter(s, keep))
  {
    if s != [] {
      FilterDistinct(s[1..], keep);
      FilterMember(s[1..], keep, s[0]);
      assert s[0] !in s[1..] by {
        forall k | 0 <= k < |s[1..]| ensures s[1..][k] != s[0] {
          assert s[1..][k] == s[k + 1];
        }
      }
    }
  }

  /** `xs.flatMap(f)`: the lists `f` gives for each element, concatenated in
      order. */
  function FlatMap<T, U>(xs: seq<T>, f: T -> seq<U>): seq<U>
  {
    if xs == [] then [] else FlatMap(xs[..|xs| - 1], f) + f(xs[|xs| - 1])
  }

  /** A value is in the concatenation exactly when some element gives it. */
  lemma {:induction false} FlatMapMember<T, U>(xs: seq<T>, f: T -> seq<U>, u: U)
    ensures u in FlatMap(xs, f) <==> exists k :: 0 <= k < |xs| && u in f(xs[k])
  {
    if xs != [] {
      var init := xs[..|xs| - 1];
      FlatMapMember(init, f, u);
      if u in FlatMap(init, f) {
        var k :| 0 <= k < |init| && u in f(init[k]);
        assert xs[k] == init[k];
      }
      if k :| 0 <= k < |xs| && u in f(xs[k]) {
        if k < |init| {
          assert xs[k] == init[k];
        }
      }
    }
  }

  lemma {:induction false} FlatMapSnoc<T, U>(xs: seq<T>, i: int, f: T -> seq<U>)
    requires 0 <= i < |xs|
    ensures FlatMap(xs[..i + 1], f) == FlatMap(xs[..i], f) + f(xs[i])
  {
    assert xs[..i + 1][..i] == xs[..i];
  }

  /** `items.forEach((x) => set.add(x))` on a set that holds `before`: each
      item is appended unless the set has it already. */
  method AddEach<T(==)>(seen: seq<T>, before: seq<T>, items: seq<T>) returns (next: seq<T>)
    requires seen == Added(before)
    ensures next == Added(before + items)
  {
    next := seen;
    var j := 0;
    assert before + items[..0] == before;
    while j < |items|
      invariant 0 <= j <= |items|
      invariant next == Added(before + items[..j])
    {
      assert (before + items[..j + 1])[..|before| + j] == before + items[..j];
      if items[j] !in next {
        next := next + [items[j]];
      }
      j := j + 1;
    }
    assert items[..j] == items;
  }

  lemma {:induction false} MultisetCons<T>(s: seq<T>, x: T)
    requires s != []
    ensures multiset(s)[x] == (if s[0] == x then 1 else 0) + multiset(s[1..])[x]
  {
    assert s == [s[0]] + s[1..];
  }

  lemma {:induction false} ConsAppend<T>(xs: seq<T>, ys: seq<T>)
    requires |ys| >= 1
    ensures xs + [ys[0]] + ys[1..] == xs + ys
  {
    assert ys == [ys[0]] + ys[1..];
  }
}
