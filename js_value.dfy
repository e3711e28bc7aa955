/** The slice of JavaScript's value semantics that the record manager relies
    on: primitive and compound values, truthiness, `??` and `||`, `String(v)`,
    `Number(v)`, own-property access, `Object.keys`, property assignment and
    object spread. */
module JsValue {
  import opened Text
  import Seqs

  /** A JavaScript number. Only integral values are modelled; NaN is kept
      because `Number(...)` of a malformed string yields it. */
  datatype Number = Int(i: int) | NaN

  datatype Value =
    | Undefined
    | Null
    | Bool(b: bool)
    | Num(n: Number)
    | Str(s: string)
    | Arr(elems: seq<Value>)
    | Obj(props: seq<(string, Value)>)

  datatype Option<+T> = None | Some(value: T)

  /** The value of an expression that may throw a TypeError instead. */
  datatype Outcome<+T> = Ok(value: T) | Throws

  predicate Nullish(v: Value)
  {
    v.Undefined? || v.Null?
  }

  /** `Boolean(v)` */
  predicate Truthy(v: Value)
  {
    match v
    case Undefined => false
    case Null => false
    case Bool(b) => b
    case Num(n) => n.Int? && n.i != 0
    case Str(s) => s != []
    case Arr(_) => true
    case Obj(_) => true
  }

  /** `v ?? d` */
  function Coalesce(v: Value, d: Value): Value
  {
    if Nullish(v) then d else v
  }

  /** `a || b` */
  function Or(a: Value, b: Value): Value
  {
    if Truthy(a) then a else b
  }

  /** `String(s || "")` is `s` for a string. */
  lemma {:induction false} StrOrEmpty(s: string)
    ensures ToStr(Or(Str(s), Str(""))) == s
  {
  }

  /** `a === b`. NaN is unequal to itself; arrays and objects compare by
      structure here, by reference in JavaScript. */
  function StrictEquals(a: Value, b: Value): (r: bool)
    ensures r ==> a == b
    ensures a == b ==> (r <==> a != Num(NaN))
  {
    a == b && a != Num(NaN)
  }

  function NumberToString(n: Number): string
  {
    match n
    case Int(i) => IntToString(i)
    case NaN => "NaN"
  }

  /** `String(v)`. An array prints as its elements joined by ",", with null
      and undefined elements printed as the empty string. */
  function ToStr(v: Value): string
  {
    match v
    case Undefined => "undefined"
    case Null => "null"
    case Bool(b) => if b then "true" else "false"
    case Num(n) => NumberToString(n)
    case Str(s) => s
    case Arr(es) =>
      Join(seq(|es|, k requires 0 <= k < |es| => if Nullish(es[k]) then "" else ToStr(es[k])), ",")
    case Obj(_) => "[object Object]"
  }

  /** `Number(s)` for a string: surrounding white space is ignored, the empty
      string is 0 and an optionally signed run of decimal digits is that
      integer; every other string is NaN in this model. */
  function StringToNumber(s: string): Number
  {
    DecimalToNumber(Trim(s))
  }

  /** `Number` of an already trimmed string. */
  function DecimalToNumber(t: string): Number
  {
    if t == [] then Int(0)
    else if (t[0] == '-' || t[0] == '+') && |t| > 1 && AllDigits(t[1..]) then
      Int(if t[0] == '-' then 0 - DigitsValue(t[1..]) else DigitsValue(t[1..]))
    else if AllDigits(t) then Int(DigitsValue(t))
    else NaN
  }

  /** `Number(v)` */
  function ToNumber(v: Value): Number
  {
    match v
    case Undefined => NaN
    case Null => Int(0)
    case Bool(b) => Int(if b then 1 else 0)
    case Num(n) => n
    case Str(s) => StringToNumber(s)
    case Arr(_) => StringToNumber(ToStr(v))
    case Obj(_) => NaN
  }

  lemma {:induction false} DigitStringTrimmed(d: string)
    requires d != [] && AllDigits(d)
    ensures Trim(d) == d && Trim("-" + d) == "-" + d
  {
    assert IsDigit(d[0]) && IsDigit(d[|d| - 1]);
    TrimmedFixed(d);
    assert ("-" + d)[|"-" + d| - 1] == d[|d| - 1];
    TrimmedFixed("-" + d);
  }

  lemma {:induction false} NaNStringRoundTrip()
    ensures StringToNumber("NaN") == NaN
  {
    TrimmedFixed("NaN");
    assert !IsDigit("NaN"[0]);
  }

  lemma {:induction false} ReadNegative(d: string)
    requires d != [] && AllDigits(d)
    ensures DecimalToNumber("-" + d) == Int(0 - DigitsValue(d))
  {
    var t := "-" + d;
    assert t[0] == '-' && |t| > 1 && t[1..] == d;
  }

  lemma {:induction false} ReadDigits(d: string)
    requires d != [] && AllDigits(d)
    ensures DecimalToNumber(d) == Int(DigitsValue(d))
  {
    assert IsDigit(d[0]);
  }

  lemma {:induction false} NegativeDigitsRoundTrip(d: string)
    requires d != [] && AllDigits(d)
    ensures StringToNumber("-" + d) == Int(0 - DigitsValue(d))
  {
    DigitStringTrimmed(d);
    ReadNegative(d);
  }

  lemma {:induction false} NegativeStringRoundTrip(i: int)
    requires i < 0
    ensures StringToNumber(IntToString(i)) == Int(i)
  {
    var d := NatToString(-i);
    assert IntToString(i) == "-" + d;
    DigitsOfNatToString(-i);
    NegativeFromDigits(i, d);
  }

  lemma {:induction false} NegativeFromDigits(i: int, d: string)
    requires i < 0 && d != [] && AllDigits(d) && DigitsValue(d) == -i
    ensures StringToNumber("-" + d) == Int(i)
  {
    NegativeDigitsRoundTrip(d);
  }

  lemma {:induction false} NaturalStringRoundTrip(i: int)
    requires i >= 0
    ensures StringToNumber(IntToString(i)) == Int(i)
  {
    var d := NatToString(i);
    assert IntToString(i) == d;
    DigitsOfNatToString(i);
    DigitStringTrimmed(d);
    ReadDigits(d);
  }

  lemma {:induction false} IntStringRoundTrip(i: int)
    ensures StringToNumber(IntToString(i)) == Int(i)
  {
    if i < 0 {
      NegativeStringRoundTrip(i);
    } else {
      NaturalStringRoundTrip(i);
    }
  }

  /** `Number(String(n)) === n` on every modelled number (NaN included, as
      the string "NaN" reads back as NaN). */
  lemma {:induction false} NumberStringRoundTrip(n: Number)
    ensures StringToNumber(NumberToString(n)) == n
  {
    match n
    case NaN => NaNStringRoundTrip();
    case Int(i) => IntStringRoundTrip(i);
  }

  // ---- own properties ----

  /** The own enumerable properties of a value, in enumeration order: an
      object's properties, and the index properties of an array or a string.
      An object's properties are held in enumeration order: `Put` keeps
      them in `OrderedKeys` order (`PutOrdered`). */
  function OwnProps(v: Value): seq<(string, Value)>
  {
    match v
    case Obj(ps) => ps
    case Arr(es) => seq(|es|, k requires 0 <= k < |es| => (NatToString(k), es[k]))
    case Str(s) => seq(|s|, k requires 0 <= k < |s| => (NatToString(k), Str([s[k]])))
    case _ => []
  }

  function PropKeys(ps: seq<(string, Value)>): (r: seq<string>)
    ensures |r| == |ps| && forall k :: 0 <= k < |ps| ==> r[k] == ps[k].0
  {
    seq(|ps|, k requires 0 <= k < |ps| => ps[k].0)
  }

  /** `Object.keys(v)` for a value that is not null or undefined. */
  function Keys(v: Value): seq<string>
  {
    PropKeys(OwnProps(v))
  }

  /** Own-property lookup; a missing key reads as undefined. */
  function Lookup(ps: seq<(string, Value)>, k: string): (r: Value)
    ensures k !in PropKeys(ps) ==> r == Undefined
  {
    if ps == [] then Undefined
    else if ps[0].0 == k then ps[0].1
    else
      TailKeyIn(ps, k);
      Lookup(ps[1..], k)
  }

  lemma {:induction false} TailKeyIn(ps: seq<(string, Value)>, k: string)
    requires ps != []
    ensures k in PropKeys(ps[1..]) ==> k in PropKeys(ps)
  {
    if k in PropKeys(ps[1..]) {
      var i :| 0 <= i < |ps| - 1 && PropKeys(ps[1..])[i] == k;
      assert PropKeys(ps)[i + 1] == k;
    }
  }

  /** A key reads as the value of its first occurrence. */
  lemma {:induction false} LookupFirst(ps: seq<(string, Value)>, j: int, k: string)
    requires 0 <= j < |ps| && ps[j].0 == k && k !in PropKeys(ps[..j])
    ensures Lookup(ps, k) == ps[j].1
  {
    if j > 0 {
      var a, b := PropKeys(ps[..j]), PropKeys(ps[1..][..j - 1]);
      assert a[0] == ps[0].0;
      assert ps[1..][j - 1] == ps[j];
      assert k !in b by {
        forall i | 0 <= i < j - 1 ensures b[i] != k {
          assert b[i] == ps[i + 1].0 == a[i + 1];
        }
      }
      LookupFirst(ps[1..], j - 1, k);
    }
  }

  /** `v[k]`: a TypeError on null and undefined; inherited properties
      (`length`, methods) are not modelled and read as undefined. */
  function Member(v: Value, k: string): (r: Outcome<Value>)
    ensures r.Throws? <==> Nullish(v)
  {
    if Nullish(v) then Throws else Ok(Lookup(OwnProps(v), k))
  }

  predicate DistinctKeys(ps: seq<(string, Value)>)
  {
    forall i, j :: 0 <= i < j < |ps| ==> ps[i].0 != ps[j].0
  }

  // ---- property order ----

  /** An array index in the sense of ECMA-262: the canonical decimal form of
      an integer below 2^32 - 1, such as "0" or "2021" but not "007" or
      "-1". */
  predicate IsArrayIndex(k: string)
  {
    k != [] && AllDigits(k) && DigitsValue(k) < 0xFFFF_FFFF && NatToString(DigitsValue(k)) == k
  }

  /** A key that is not an array index; such keys are listed in the order
      they were created. */
  predicate IsNamedKey(k: string)
  {
    !IsArrayIndex(k)
  }

  /** The order in which `Object.keys` lists the keys of an ordinary object
      (the OrdinaryOwnPropertyKeys operation of ECMA-262): every array index
      comes before every other key, and the indices ascend. */
  predicate OrderedKeys(keys: seq<string>)
  {
    forall i, j :: 0 <= i < j < |keys| && IsArrayIndex(keys[j]) ==>
      IsArrayIndex(keys[i]) && DigitsValue(keys[i]) < DigitsValue(keys[j])
  }

  /** `keys` are the keys of an object whose properties were created under
      the names `created`, none twice: the same names, in `Object.keys`
      order, those that are not array indices in creation order. */
  predicate KeyOrderOf(keys: seq<string>, created: seq<string>)
  {
    OrderedKeys(keys) && multiset(keys) == multiset(created)
    && Seqs.Filter(keys, IsNamedKey) == Seqs.Filter(created, IsNamedKey)
  }

  /** An array index `k` goes before `other` when that is not an index or a
      larger one. */
  predicate Precedes(k: string, other: string)
    requires IsArrayIndex(k)
  {
    !IsArrayIndex(other) || DigitsValue(k) < DigitsValue(other)
  }

  /** Where a new key `k` goes among `keys`: an array index before the first
      key it precedes, any other key last. */
  function Slot(keys: seq<string>, k: string): (r: nat)
    ensures r <= |keys|
    ensures forall i :: 0 <= i < r ==>
      IsNamedKey(k) || (IsArrayIndex(keys[i]) && DigitsValue(keys[i]) <= DigitsValue(k))
    ensures r < |keys| ==> IsArrayIndex(k) && Precedes(k, keys[r])
  {
    if keys == [] || (IsArrayIndex(k) && Precedes(k, keys[0])) then 0
    else
      var r := 1 + Slot(keys[1..], k);
      assert forall i :: 1 <= i < r ==> keys[i] == keys[1..][i - 1];
      r
  }

  /** `obj[k] = v`: an existing key keeps its place; a new array index goes
      before the first key it precedes, and any other new key goes last. */
  function Put(ps: seq<(string, Value)>, k: string, v: Value): (r: seq<(string, Value)>)
    ensures |r| == if k in PropKeys(ps) then |ps| else |ps| + 1
  {
    if ps == [] then [(k, v)]
    else if ps[0].0 == k then PropKeysCons((k, v), ps[1..]); PropKeysCons(ps[0], ps[1..]); assert ps == [ps[0]] + ps[1..]; [(k, v)] + ps[1..]
    else if k !in PropKeys(ps) && IsArrayIndex(k) && Precedes(k, ps[0].0) then PropKeysCons((k, v), ps); [(k, v)] + ps
    else
      var t := Put(ps[1..], k, v);
      PropKeysCons(ps[0], t); PropKeysCons(ps[0], ps[1..]); assert ps == [ps[0]] + ps[1..];
      [ps[0]] + t
  }

  /** Assigning to an existing key keeps the keys; a new key is inserted at
      its `Slot`. */
  lemma {:induction false} PutKeys(ps: seq<(string, Value)>, k: string, v: Value)
    ensures k in PropKeys(ps) ==> PropKeys(Put(ps, k, v)) == PropKeys(ps)
    ensures k !in PropKeys(ps) ==>
      PropKeys(Put(ps, k, v)) == PropKeys(ps)[..Slot(PropKeys(ps), k)] + [k] + PropKeys(ps)[Slot(PropKeys(ps), k)..]
  {
    if k in PropKeys(ps) {
      PutExistingKeys(ps, k, v);
    } else {
      PutNewKeys(ps, k, v);
    }
  }

  /** A key is present after `o[k] = v` exactly when it is `k` or was
      present before. */
  lemma {:induction false} PutMember(ps: seq<(string, Value)>, k: string, v: Value)
    ensures forall j :: j in PropKeys(Put(ps, k, v)) <==> j == k || j in PropKeys(ps)
  {
    PutKeys(ps, k, v);
    var keys := PropKeys(ps);
    if k !in keys {
      var n := Slot(keys, k);
      assert keys == keys[..n] + keys[n..];
    }
  }

  lemma {:induction false} PutExistingKeys(ps: seq<(string, Value)>, k: string, v: Value)
    requires k in PropKeys(ps)
    ensures PropKeys(Put(ps, k, v)) == PropKeys(ps)
  {
    var t := ps[1..];
    assert ps == [ps[0]] + t;
    PropKeysCons(ps[0], t);
    if ps[0].0 == k {
      PropKeysCons((k, v), t);
    } else {
      PutExistingKeys(t, k, v);
      PropKeysCons(ps[0], Put(t, k, v));
    }
  }

  lemma {:induction false} PutNewKeys(ps: seq<(string, Value)>, k: string, v: Value)
    requires k !in PropKeys(ps)
    ensures PropKeys(Put(ps, k, v)) == PropKeys(ps)[..Slot(PropKeys(ps), k)] + [k] + PropKeys(ps)[Slot(PropKeys(ps), k)..]
  {
    if ps != [] {
      var t := ps[1..];
      assert ps == [ps[0]] + t;
      PropKeysCons(ps[0], t);
      if IsArrayIndex(k) && Precedes(k, ps[0].0) {
        PropKeysCons((k, v), ps);
      } else {
        var keys, n := PropKeys(t), Slot(PropKeys(t), k);
        PutNewKeys(t, k, v);
        PutPasses(ps, k, v);
        PropKeysCons(ps[0], Put(t, k, v));
        assert PropKeys(Put(ps, k, v)) == [ps[0].0] + (keys[..n] + [k] + keys[n..]);
        SlotPasses(ps[0].0, keys, k);
        assert PropKeys(ps) == [ps[0].0] + keys && Slot(PropKeys(ps), k) == n + 1;
        ConsInsert(ps[0].0, keys, n, k);
      }
    }
  }

  /** A new key that does not go before the first property goes after it. */
  lemma {:induction false} PutPasses(ps: seq<(string, Value)>, k: string, v: Value)
    requires ps != [] && k !in PropKeys(ps) && !(IsArrayIndex(k) && Precedes(k, ps[0].0))
    ensures Put(ps, k, v) == [ps[0]] + Put(ps[1..], k, v)
  {
    assert PropKeys(ps)[0] == ps[0].0;
  }

  lemma {:induction false} SlotPasses(h: string, t: seq<string>, k: string)
    requires !(IsArrayIndex(k) && Precedes(k, h))
    ensures Slot([h] + t, k) == 1 + Slot(t, k)
  {
    assert ([h] + t)[1..] == t;
  }

  lemma {:induction false} ConsInsert<T>(h: T, t: seq<T>, i: int, x: T)
    requires 0 <= i <= |t|
    ensures [h] + (t[..i] + [x] + t[i..]) == ([h] + t)[..i + 1] + [x] + ([h] + t)[i + 1..]
  {
    assert ([h] + t)[..i + 1] == [h] + t[..i];
    assert ([h] + t)[i + 1..] == t[i..];
  }

  /** Inserting a new key at its `Slot` keeps the keys in `Object.keys`
      order. */
  lemma {:induction false} InsertOrdered(keys: seq<string>, k: string)
    requires OrderedKeys(keys) && k !in keys
    ensures OrderedKeys(keys[..Slot(keys, k)] + [k] + keys[Slot(keys, k)..])
  {
    var n := keys[..Slot(keys, k)] + [k] + keys[Slot(keys, k)..];
    forall i, j | 0 <= i < j < |n| && IsArrayIndex(n[j])
      ensures IsArrayIndex(n[i]) && DigitsValue(n[i]) < DigitsValue(n[j])
    {
      InsertPair(keys, k, n, i, j);
    }
  }

  lemma {:induction false} InsertPair(keys: seq<string>, k: string, n: seq<string>, i: int, j: int)
    requires OrderedKeys(keys) && k !in keys
    requires n == keys[..Slot(keys, k)] + [k] + keys[Slot(keys, k)..]
    requires 0 <= i < j < |n| && IsArrayIndex(n[j])
    ensures IsArrayIndex(n[i]) && DigitsValue(n[i]) < DigitsValue(n[j])
  {
    var s := Slot(keys, k);
    InsertAt(keys, s, k, i);
    InsertAt(keys, s, k, j);
    if j == s {
      BeforeSlot(keys, k, i);
    } else if i == s {
      AfterSlot(keys, k, j - 1);
    } else {
      var a, b := if i < s then i else i - 1, if j < s then j else j - 1;
      assert n[i] == keys[a] && n[j] == keys[b] && a < b;
    }
  }

  lemma {:induction false} InsertAt<T>(s: seq<T>, i: int, x: T, p: int)
    requires 0 <= i <= |s| && 0 <= p <= |s|
    ensures (s[..i] + [x] + s[i..])[p] == if p < i then s[p] else if p == i then x else s[p - 1]
  {
  }

  /** The keys passed over on the way to the `Slot` of a new array index are
      smaller indices. */
  lemma {:induction false} BeforeSlot(keys: seq<string>, k: string, i: int)
    requires k !in keys && IsArrayIndex(k) && 0 <= i < Slot(keys, k)
    ensures IsArrayIndex(keys[i]) && DigitsValue(keys[i]) < DigitsValue(k)
  {
    assert keys[i] != k;
  }

  /** The array indices from the `Slot` of a new key on are larger indices. */
  lemma {:induction false} AfterSlot(keys: seq<string>, k: string, j: int)
    requires OrderedKeys(keys) && Slot(keys, k) <= j < |keys| && IsArrayIndex(keys[j])
    ensures IsArrayIndex(k) && DigitsValue(k) < DigitsValue(keys[j])
  {
    var s := Slot(keys, k);
    if s < j {
      assert IsArrayIndex(keys[s]) && DigitsValue(keys[s]) < DigitsValue(keys[j]);
    }
  }

  /** Assignment keeps the keys of an object in `Object.keys` order. */
  lemma {:induction false} PutOrdered(ps: seq<(string, Value)>, k: string, v: Value)
    requires OrderedKeys(PropKeys(ps))
    ensures OrderedKeys(PropKeys(Put(ps, k, v)))
  {
    PutKeys(ps, k, v);
    if k !in PropKeys(ps) {
      InsertOrdered(PropKeys(ps), k);
    }
  }

  /** After assignment the keys that are not array indices are the old ones
      followed by `k` when it is such a key and new. */
  lemma {:induction false} PutNamedKeys(ps: seq<(string, Value)>, k: string, v: Value)
    ensures Seqs.Filter(PropKeys(Put(ps, k, v)), IsNamedKey)
         == Seqs.Filter(PropKeys(ps), IsNamedKey) + (if k !in PropKeys(ps) && IsNamedKey(k) then [k] else [])
  {
    var keys := PropKeys(ps);
    PutKeys(ps, k, v);
    if k !in keys {
      InsertFilter(keys, Slot(keys, k), k, IsNamedKey);
    }
  }

  /** Inserting an element, which goes last when it passes the test, adds
      it to the passing elements in order. */
  lemma {:induction false} InsertFilter<T>(s: seq<T>, i: int, x: T, p: T -> bool)
    requires 0 <= i <= |s| && (p(x) ==> i == |s|)
    ensures Seqs.Filter(s[..i] + [x] + s[i..], p) == Seqs.Filter(s, p) + (if p(x) then [x] else [])
  {
    var a, b := s[..i], s[i..];
    assert a + b == s;
    Seqs.FilterAppend(a + [x], b, p);
    Seqs.FilterAppend(a, [x], p);
    Seqs.FilterAppend(a, b, p);
    assert [x][1..] == [];
    var fx := Seqs.Filter([x], p);
    assert fx == if p(x) then [x] else [];
    if p(x) {
      assert b == [] && Seqs.Filter(b, p) == [];
    }
  }

  /** Creating a property under a new name `k` extends the names the keys
      are in order of. */
  lemma {:induction false} PutKeyOrder(ps: seq<(string, Value)>, k: string, v: Value, created: seq<string>)
    requires KeyOrderOf(PropKeys(ps), created) && k !in created
    ensures KeyOrderOf(PropKeys(Put(ps, k, v)), created + [k])
  {
    var keys := PropKeys(ps);
    assert k !in keys by {
      assert multiset(keys)[k] == multiset(created)[k] == 0;
    }
    PutKeys(ps, k, v);
    PutOrdered(ps, k, v);
    PutNamedKeys(ps, k, v);
    InsertMultiset(keys, Slot(keys, k), k);
    Seqs.FilterAppend(created, [k], IsNamedKey);
  }

  lemma {:induction false} InsertMultiset<T>(s: seq<T>, i: int, x: T)
    requires 0 <= i <= |s|
    ensures multiset(s[..i] + [x] + s[i..]) == multiset(s) + multiset{x}
  {
    assert s[..i] + s[i..] == s;
  }

  /** Without array indices among the names, the keys are the names
      themselves, in creation order. */
  lemma {:induction false} KeyOrderPlain(keys: seq<string>, created: seq<string>)
    requires KeyOrderOf(keys, created)
    requires forall j :: 0 <= j < |created| ==> IsNamedKey(created[j])
    ensures keys == created
  {
    Seqs.FilterAll(created, IsNamedKey);
    forall j | 0 <= j < |keys| ensures IsNamedKey(keys[j]) {
      assert keys[j] in multiset(created);
    }
    Seqs.FilterAll(keys, IsNamedKey);
  }

  lemma {:induction false} PropKeysCons(p: (string, Value), rest: seq<(string, Value)>)
    ensures PropKeys([p] + rest) == [p.0] + PropKeys(rest)
  {
  }

  lemma {:induction false} PutLookup(ps: seq<(string, Value)>, k: string, v: Value, j: string)
    ensures Lookup(Put(ps, k, v), j) == if j == k then v else Lookup(ps, j)
  {
    if ps != [] && ps[0].0 != k {
      if k !in PropKeys(ps) && IsArrayIndex(k) && Precedes(k, ps[0].0) {
        assert ([(k, v)] + ps)[1..] == ps;
      } else {
        PutLookup(ps[1..], k, v, j);
      }
    }
  }

  /** `{...base, ...over}`: the properties of `over` assigned, in order, on
      top of those of `base`. */
  function Spread(base: seq<(string, Value)>, over: seq<(string, Value)>): (r: seq<(string, Value)>)
    ensures forall j :: j in PropKeys(r) <==> j in PropKeys(base) || j in PropKeys(over)
    decreases |over|
  {
    if over == [] then base
    else
      PropKeysCons(over[0], over[1..]);
      assert over == [over[0]] + over[1..];
      PutMember(base, over[0].0, over[0].1);
      Spread(Put(base, over[0].0, over[0].1), over[1..])
  }

  /** A spread property reads as its last value in `over`, any other as its
      value in `base`. */
  lemma {:induction false} SpreadLookup(base: seq<(string, Value)>, over: seq<(string, Value)>, k: string)
    ensures Lookup(Spread(base, over), k)
         == if k in PropKeys(over) then Lookup(Spread([], over), k) else Lookup(base, k)
    decreases |over|
  {
    if over != [] {
      assert PropKeys(over) == [over[0].0] + PropKeys(over[1..]);
      SpreadLookup(Put(base, over[0].0, over[0].1), over[1..], k);
      SpreadLookup(Put([], over[0].0, over[0].1), over[1..], k);
      PutLookup(base, over[0].0, over[0].1, k);
      PutLookup([], over[0].0, over[0].1, k);
    }
  }

  /** Spreading keeps the keys in `Object.keys` order, and the keys of `base`
      that are not array indices stay first among such keys, in order. */
  lemma {:induction false} SpreadKeys(base: seq<(string, Value)>, over: seq<(string, Value)>)
    requires OrderedKeys(PropKeys(base))
    ensures OrderedKeys(PropKeys(Spread(base, over)))
    ensures Seqs.Filter(PropKeys(base), IsNamedKey) <= Seqs.Filter(PropKeys(Spread(base, over)), IsNamedKey)
    decreases |over|
  {
    if over != [] {
      var next := Put(base, over[0].0, over[0].1);
      PutOrdered(base, over[0].0, over[0].1);
      PutNamedKeys(base, over[0].0, over[0].1);
      SpreadKeys(next, over[1..]);
    }
  }

  /** `{...base, [k1]: v1, [k2]: v2}` read at `k`. */
  lemma {:induction false} SpreadPairLookup(base: seq<(string, Value)>, k1: string, v1: Value, k2: string, v2: Value, k: string)
    ensures Lookup(Spread(base, [(k1, v1), (k2, v2)]), k)
         == if k == k2 then v2 else if k == k1 then v1 else Lookup(base, k)
  {
    var over := [(k1, v1), (k2, v2)];
    assert over[1..] == [(k2, v2)] && over[1..][1..] == [];
    calc {
      Spread(base, over);
      Spread(Put(base, k1, v1), [(k2, v2)]);
      Spread(Put(Put(base, k1, v1), k2, v2), []);
    }
    PutLookup(Put(base, k1, v1), k2, v2, k);
    PutLookup(base, k1, v1, k);
  }

  /** When `over` names no key twice, each of its properties reads as its
      own value after the spread. */
  lemma {:induction false} SpreadDistinctLookup(base: seq<(string, Value)>, over: seq<(string, Value)>, j: int)
    requires DistinctKeys(over) && 0 <= j < |over|
    ensures Lookup(Spread(base, over), over[j].0) == over[j].1
  {
    var later := over[j + 1..];
    assert forall i :: 0 <= i < |later| ==> PropKeys(later)[i] == over[j + 1 + i].0 != over[j].0;
    SpreadLaterLookup(base, over, j);
  }

  /** A property of `over` whose key no later property repeats reads as its
      own value after the spread. */
  lemma {:induction false} SpreadLaterLookup(base: seq<(string, Value)>, over: seq<(string, Value)>, j: int)
    requires 0 <= j < |over| && over[j].0 !in PropKeys(over[j + 1..])
    ensures Lookup(Spread(base, over), over[j].0) == over[j].1
    decreases |over|
  {
    if j == 0 {
      SpreadHeadLookup(base, over);
    } else {
      var tail := over[1..];
      assert tail[j - 1] == over[j] && tail[j..] == over[j + 1..];
      SpreadLaterLookup(Put(base, over[0].0, over[0].1), tail, j - 1);
    }
  }

  /** The first property of `over` reads as its own value after the spread
      when no later property has its key. */
  lemma {:induction false} SpreadHeadLookup(base: seq<(string, Value)>, over: seq<(string, Value)>)
    requires over != [] && over[0].0 !in PropKeys(over[1..])
    ensures Lookup(Spread(base, over), over[0].0) == over[0].1
  {
    SpreadLookup(Put(base, over[0].0, over[0].1), over[1..], over[0].0);
    PutLookup(base, over[0].0, over[0].1, over[0].0);
  }

  /** Assigning to the first property named `ps[j].0` rewrites that entry in
      place. */
  lemma {:induction false} PutAt(ps: seq<(string, Value)>, j: int, v: Value)
    requires 0 <= j < |ps| && ps[j].0 !in PropKeys(ps[..j])
    ensures Put(ps, ps[j].0, v) == ps[..j] + [(ps[j].0, v)] + ps[j + 1..]
  {
    if j > 0 {
      var k, t := ps[j].0, ps[1..];
      assert ps == [ps[0]] + t;
      assert PropKeys(ps[..j])[0] == ps[0].0;
      assert PropKeys(ps)[j] == k;
      PutExistingPasses(ps, k, v);
      assert t[j - 1] == ps[j];
      assert PropKeys(t[..j - 1]) == PropKeys(ps[..j])[1..];
      PutAt(t, j - 1, v);
      ConsReplace(ps[0], t, j - 1, (k, v));
      assert Put(ps, k, v) == [ps[0]] + (t[..j - 1] + [(k, v)] + t[j..]);
    } else {
      assert ps[..0] == [] && Put(ps, ps[0].0, v) == [(ps[0].0, v)] + ps[1..];
    }
  }

  /** Assigning to a key that is present but not first passes over the
      first entry. */
  lemma {:induction false} PutExistingPasses(ps: seq<(string, Value)>, k: string, v: Value)
    requires ps != [] && ps[0].0 != k && k in PropKeys(ps)
    ensures Put(ps, k, v) == [ps[0]] + Put(ps[1..], k, v)
  {
  }

  lemma {:induction false} ConsReplace<T>(h: T, t: seq<T>, i: int, x: T)
    requires 0 <= i < |t|
    ensures [h] + (t[..i] + [x] + t[i + 1..]) == ([h] + t)[..i + 1] + [x] + ([h] + t)[i + 2..]
  {
    assert ([h] + t)[..i + 1] == [h] + t[..i];
    assert ([h] + t)[i + 2..] == t[i + 1..];
  }

  /** Assigning to a key that first occurs after `pre` rewrites that entry
      in place. */
  lemma {:induction false} PutAfter(pre: seq<(string, Value)>, k: string, was: Value, post: seq<(string, Value)>, v: Value)
    requires k !in PropKeys(pre)
    ensures Put(pre + [(k, was)] + post, k, v) == pre + [(k, v)] + post
  {
    if pre == [] {
      SplitFirst([(k, was)], [], post);
      SplitFirst([(k, v)], [], post);
    } else {
      var ps := pre + [(k, was)] + post;
      SplitFirst(pre, [(k, was)], post);
      SplitFirst(pre, [(k, v)], post);
      KeyNotInTail(pre, k);
      PutAfter(pre[1..], k, was, post, v);
      assert PropKeys(ps)[|pre|] == k;
      calc {
        Put(ps, k, v);
        [ps[0]] + Put(ps[1..], k, v);
        [pre[0]] + (pre[1..] + [(k, v)] + post);
      }
    }
  }

  lemma {:induction false} KeyNotInTail(ps: seq<(string, Value)>, k: string)
    requires ps != [] && k !in PropKeys(ps)
    ensures ps[0].0 != k && k !in PropKeys(ps[1..])
  {
    assert PropKeys(ps)[0] == ps[0].0;
    assert forall j :: 0 <= j < |ps| - 1 ==> PropKeys(ps[1..])[j] == PropKeys(ps)[j + 1];
  }

  lemma {:induction false} SplitFirst<T>(pre: seq<T>, mid: seq<T>, post: seq<T>)
    requires pre != []
    ensures (pre + mid + post)[0] == pre[0]
    ensures (pre + mid + post)[1..] == pre[1..] + mid + post
    ensures [pre[0]] + (pre[1..] + mid + post) == pre + mid + post
  {
    assert pre == [pre[0]] + pre[1..];
  }

  /** Spreading an object over one with the same keys, in the same order,
      gives the spread object itself. */
  lemma {:induction false} SpreadSameKeys(base: seq<(string, Value)>, over: seq<(string, Value)>, i: int)
    requires |base| == |over| && PropKeys(base) == PropKeys(over) && DistinctKeys(over)
    requires 0 <= i <= |over| && base[..i] == over[..i]
    ensures Spread(base, over[i..]) == over
    decreases |over| - i
  {
    if i == |over| {
      assert base == base[..i] == over[..i] == over;
    } else {
      assert base[i].0 == over[i].0;
      assert over[i].0 !in PropKeys(base[..i]) by {
        assert PropKeys(base[..i]) == PropKeys(over[..i]);
      }
      PutAt(base, i, over[i].1);
      var next := Put(base, over[i].0, over[i].1);
      assert next[..i + 1] == over[..i + 1];
      PutKeys(base, over[i].0, over[i].1);
      assert over[i..][1..] == over[i + 1..];
      SpreadSameKeys(next, over, i + 1);
    }
  }

  /** In an object without repeated keys every property reads as its own
      value. */
  lemma {:induction false} LookupDistinct(ps: seq<(string, Value)>, j: int)
    requires DistinctKeys(ps) && 0 <= j < |ps|
    ensures Lookup(ps, ps[j].0) == ps[j].1
  {
    assert ps[j].0 !in PropKeys(ps[..j]);
    LookupFirst(ps, j, ps[j].0);
  }
}
