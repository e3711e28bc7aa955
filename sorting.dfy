/** `Array.prototype.sort` with a comparator, which JavaScript guarantees to be
    stable. A comparator `cmp` is modelled by the relation
    `le(a, b) == (cmp(a, b) <= 0)`; every comparator of the sources is a total
    preorder. `Sort` is a stable insertion sort, and the lemmas below show
    that its result is ordered, is a permutation of its input and keeps every
    class of equivalent elements in input order: what every stable sort
    returns. */
module Sorting {

  ghost predicate TotalPreorder<T(!new)>(le: (T, T) -> bool)
  {
    && (forall a, b :: le(a, b) || le(b, a))
    && (forall a, b, c :: le(a, b) && le(b, c) ==> le(a, c))
  }

  predicate SortedBy<T>(s: seq<T>, le: (T, T) -> bool)
  {
    forall i, j :: 0 <= i < j < |s| ==> le(s[i], s[j])
  }

  /** The comparator `(a, b) => cmp(key(a), key(b))`. */
  function ByKey<T, K>(cmp: (K, K) -> bool, key: T -> K): (T, T) -> bool
  {
    (a: T, b: T) => cmp(key(a), key(b))
  }

  /** The comparator with its arguments swapped: `(a, b) => cmp(b, a)`. */
  function Flip<T>(le: (T, T) -> bool): (T, T) -> bool
  {
    (a: T, b: T) => le(b, a)
  }

  lemma {:induction false} ByKeyPreorder<T(!new), K(!new)>(cmp: (K, K) -> bool, key: T -> K)
    ensures TotalPreorder(cmp) ==> TotalPreorder(ByKey(cmp, key))
  {
    if TotalPreorder(cmp) {
      var le := ByKey(cmp, key);
      forall a, b, c | le(a, b) && le(b, c) ensures le(a, c) {
        assert cmp(key(a), key(b)) && cmp(key(b), key(c));
      }
    }
  }

  lemma {:induction false} FlipPreorder<T(!new)>(le: (T, T) -> bool)
    ensures TotalPreorder(le) ==> TotalPreorder(Flip(le))
  {
    if TotalPreorder(le) {
      var ge := Flip(le);
      forall a, b, c | ge(a, b) && ge(b, c) ensures ge(a, c) {
        assert le(b, a) && le(c, b);
      }
    }
  }

  /** Places `x` before the first element it is not greater than. */
  function Insert<T>(x: T, s: seq<T>, le: (T, T) -> bool): seq<T>
  {
    if s == [] || le(x, s[0]) then [x] + s else [s[0]] + Insert(x, s[1..], le)
  }

  function Sort<T>(s: seq<T>, le: (T, T) -> bool): seq<T>
  {
    if s == [] then [] else Insert(s[0], Sort(s[1..], le), le)
  }

  lemma {:induction false} InsertPermutation<T>(x: T, s: seq<T>, le: (T, T) -> bool)
    ensures multiset(Insert(x, s, le)) == multiset(s) + multiset{x}
  {
    if s != [] && !le(x, s[0]) {
      InsertPermutation(x, s[1..], le);
      assert s == [s[0]] + s[1..];
    }
  }

  /** The result of `Sort` is a permutation of its input. */
  lemma {:induction false} SortPermutation<T>(s: seq<T>, le: (T, T) -> bool)
    ensures multiset(Sort(s, le)) == multiset(s)
  {
    if s != [] {
      SortPermutation(s[1..], le);
      InsertPermutation(s[0], Sort(s[1..], le), le);
      assert s == [s[0]] + s[1..];
    }
  }

  lemma {:induction false} InsertSorted<T(!new)>(x: T, s: seq<T>, le: (T, T) -> bool)
    requires TotalPreorder(le) && SortedBy(s, le)
    ensures SortedBy(Insert(x, s, le), le)
  {
    if s == [] {
    } else if le(x, s[0]) {
      var r := [x] + s;
      forall i, j | 0 <= i < j < |r| ensures le(r[i], r[j]) {
        if i == 0 && j > 1 { assert le(s[0], s[j - 1]); }
      }
    } else {
      var tail := Insert(x, s[1..], le);
      InsertSorted(x, s[1..], le);
      InsertPermutation(x, s[1..], le);
      var r := [s[0]] + tail;
      forall j | 0 <= j < |tail| ensures le(s[0], tail[j]) {
        assert tail[j] in multiset(s[1..]) + multiset{x};
        if tail[j] != x {
          assert tail[j] in s[1..];
          var k :| 0 <= k < |s[1..]| && s[1..][k] == tail[j];
          assert s[k + 1] == tail[j];
        }
      }
      forall i, j | 0 <= i < j < |r| ensures le(r[i], r[j]) {
        if i == 0 { assert r[j] == tail[j - 1]; }
      }
    }
  }

  /** The result of `Sort` is ordered by the comparator. */
  lemma {:induction false} SortSorted<T(!new)>(s: seq<T>, le: (T, T) -> bool)
    requires TotalPreorder(le)
    ensures SortedBy(Sort(s, le), le)
  {
    if s != [] {
      SortSorted(s[1..], le);
      InsertSorted(s[0], Sort(s[1..], le), le);
    }
  }

  /** The elements of `s` that the comparator cannot tell apart from `x`, in
      their order in `s`. */
  function EquivalentTo<T>(s: seq<T>, x: T, le: (T, T) -> bool): seq<T>
  {
    if s == [] then []
    else (if le(x, s[0]) && le(s[0], x) then [s[0]] else []) + EquivalentTo(s[1..], x, le)
  }

  lemma {:induction false} InsertStable<T(!new)>(y: T, t: seq<T>, x: T, le: (T, T) -> bool)
    requires TotalPreorder(le)
    ensures EquivalentTo(Insert(y, t, le), x, le)
         == (if le(x, y) && le(y, x) then [y] else []) + EquivalentTo(t, x, le)
  {
    if t == [] || le(y, t[0]) {
      assert ([y] + t)[1..] == t;
    } else {
      var t0, rest := t[0], Insert(y, t[1..], le);
      InsertStable(y, t[1..], x, le);
      assert ([t0] + rest)[1..] == rest;
      var ey := if le(x, y) && le(y, x) then [y] else [];
      var et := if le(x, t0) && le(t0, x) then [t0] else [];
      assert EquivalentTo(Insert(y, t, le), x, le) == et + (ey + EquivalentTo(t[1..], x, le));
      Apart(y, x, t0, le);
      SwapIfOneEmpty(et, ey, EquivalentTo(t[1..], x, le));
    }
  }

  lemma {:induction false} SwapIfOneEmpty<T>(a: seq<T>, b: seq<T>, c: seq<T>)
    requires a == [] || b == []
    ensures a + (b + c) == b + (a + c)
  {
    if a == [] {
      assert a + (b + c) == b + c == b + (a + c);
    } else {
      assert b + (a + c) == a + c == a + (b + c);
    }
  }

  /** Two elements in the wrong order for `le` are not both equivalent to
      a third. */
  lemma {:induction false} Apart<T(!new)>(y: T, x: T, t0: T, le: (T, T) -> bool)
    requires TotalPreorder(le) && !le(y, t0)
    ensures !(le(y, x) && le(x, t0))
  {
  }

  /** `Sort` is stable: each class of equivalent elements keeps its input
      order. */
  lemma {:induction false} SortStable<T(!new)>(s: seq<T>, x: T, le: (T, T) -> bool)
    requires TotalPreorder(le)
    ensures EquivalentTo(Sort(s, le), x, le) == EquivalentTo(s, x, le)
  {
    if s != [] {
      SortStable(s[1..], x, le);
      InsertStable(s[0], Sort(s[1..], le), x, le);
    }
  }
}
