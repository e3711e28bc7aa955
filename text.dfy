/** String primitives the JavaScript sources lean on: `trim`, `toLowerCase`,
    `includes`, `split`/`join` on a one-character separator, `endsWith`, and
    decimal digit strings. */
module Text {

  /** ECMAScript WhiteSpace and LineTerminator code points: the set that
      `String.prototype.trim` removes. */
  predicate IsSpace(c: char)
  {
    c == '\t' || c == '\n' || c == '\U{B}' || c == '\U{C}' || c == '\r' || c == ' '
    || c == '\U{A0}' || c == '\U{1680}' || ('\U{2000}' <= c <= '\U{200A}')
    || c == '\U{2028}' || c == '\U{2029}' || c == '\U{202F}' || c == '\U{205F}'
    || c == '\U{3000}' || c == '\U{FEFF}'
  }

  function TrimStart(s: string): (r: string)
    ensures |r| <= |s| && r == s[|s| - |r|..]
    ensures r == [] || !IsSpace(r[0])
    ensures forall k :: 0 <= k < |s| - |r| ==> IsSpace(s[k])
  {
    if s == [] || !IsSpace(s[0]) then s else TrimStart(s[1..])
  }

  function TrimEnd(s: string): (r: string)
    ensures |r| <= |s| && r == s[..|r|]
    ensures r == [] || !IsSpace(r[|r| - 1])
    ensures forall k :: |r| <= k < |s| ==> IsSpace(s[k])
  {
    if s == [] || !IsSpace(s[|s| - 1]) then s else TrimEnd(s[..|s| - 1])
  }

  /** `TrimStart` stops at a character that is not white space. */
  lemma {:induction false} TrimStartStops(s: string)
    ensures TrimStart(s) == [] || !IsSpace(TrimStart(s)[0])
  {
    if s != [] && IsSpace(s[0]) {
      TrimStartStops(s[1..]);
    }
  }

  /** `TrimStart` keeps every character from the first that is not white
      space on. */
  lemma {:induction false} TrimStartKeeps(s: string, k: int)
    requires 0 <= k < |s| && !IsSpace(s[k])
    ensures |s| - |TrimStart(s)| <= k
  {
    if IsSpace(s[0]) {
      assert s[1..][k - 1] == s[k];
      TrimStartKeeps(s[1..], k - 1);
    }
  }

  /** `TrimEnd` stops at a character that is not white space. */
  lemma {:induction false} TrimEndStops(s: string)
    ensures TrimEnd(s) == [] || !IsSpace(TrimEnd(s)[|TrimEnd(s)| - 1])
  {
    if s != [] && IsSpace(s[|s| - 1]) {
      TrimEndStops(s[..|s| - 1]);
    }
  }

  /** `TrimEnd` keeps every character up to the last that is not white
      space. */
  lemma {:induction false} TrimEndKeeps(s: string, k: int)
    requires 0 <= k < |s| && !IsSpace(s[k])
    ensures k < |TrimEnd(s)|
  {
    if IsSpace(s[|s| - 1]) {
      assert s[..|s| - 1][k] == s[k];
      TrimEndKeeps(s[..|s| - 1], k);
    }
  }

  /** `s.trim()` */
  function Trim(s: string): string
  {
    TrimEnd(TrimStart(s))
  }

  /** `xs.map((s) => s.trim())` */
  function TrimEach(xs: seq<string>): (r: seq<string>)
    ensures |r| == |xs|
  {
    seq(|xs|, k requires 0 <= k < |xs| => Trim(xs[k]))
  }

  /** A string that `trim` leaves alone. */
  predicate Trimmed(s: string)
  {
    s == [] || (!IsSpace(s[0]) && !IsSpace(s[|s| - 1]))
  }

  lemma {:induction false} TrimmedFixed(s: string)
    requires Trimmed(s)
    ensures Trim(s) == s
  {
  }

  /** `trim` deletes leading and trailing white space and only that. */
  lemma {:induction false} TrimSpec(s: string)
    ensures Trimmed(Trim(s))
    ensures exists i, j :: 0 <= i <= j <= |s| && Trim(s) == s[i..j]
  {
    var t := TrimStart(s);
    var u := TrimEnd(t);
    TrimStartStops(s);
    TrimEndStops(t);
    if u != [] {
      assert u[0] == t[0];
    }
    var i := |s| - |t|;
    assert u == t[..|u|] == s[i..i + |u|];
  }

  /** Trimming strings that are already trimmed changes none of them. */
  lemma {:induction false} TrimEachFixed(xs: seq<string>)
    requires forall j :: 0 <= j < |xs| ==> Trimmed(xs[j])
    ensures TrimEach(xs) == xs
  {
    forall j | 0 <= j < |xs| ensures TrimEach(xs)[j] == xs[j] {
      TrimmedFixed(xs[j]);
    }
  }

  lemma {:induction false} TrimIdempotent(s: string)
    ensures Trim(Trim(s)) == Trim(s)
  {
    TrimSpec(s);
    TrimmedFixed(Trim(s));
  }

  lemma {:induction false} TrimKeeps(s: string, k: int)
    requires 0 <= k < |s| && !IsSpace(s[k])
    ensures 0 < |TrimEnd(TrimStart(s))|
  {
    var i := TrimStartAt(s, k);
    TrimEndKeeps(TrimStart(s), i);
  }

  /** Where character `k` of `s` lands in `TrimStart(s)`. */
  lemma {:induction false} TrimStartAt(s: string, k: int) returns (i: int)
    requires 0 <= k < |s| && !IsSpace(s[k])
    ensures 0 <= i < |TrimStart(s)| && TrimStart(s)[i] == s[k]
  {
    var t := TrimStart(s);
    TrimStartKeeps(s, k);
    i := k - (|s| - |t|);
    assert t == s[|s| - |t|..];
  }

  /** A string of white space only. */
  predicate Blank(s: string)
  {
    forall k :: 0 <= k < |s| ==> IsSpace(s[k])
  }

  lemma {:induction false} BlankTrimsEmpty(s: string)
    requires Blank(s)
    ensures Trim(s) == ""
  {
  }

  /** `s.trim() === ""` exactly when `s` is white space only. */
  lemma {:induction false} BlankIffTrimsEmpty(s: string)
    ensures Blank(s) <==> Trim(s) == ""
  {
    if Blank(s) {
      BlankTrimsEmpty(s);
    } else {
      var k :| 0 <= k < |s| && !IsSpace(s[k]);
      TrimKeeps(s, k);
    }
  }

  /** `join` brings in no character that neither a part nor the separator
      holds. */
  lemma {:induction false} JoinAvoids(parts: seq<string>, sep: string, c: char)
    requires c !in sep
    requires forall k :: 0 <= k < |parts| ==> c !in parts[k]
    ensures c !in Join(parts, sep)
  {
    if |parts| > 1 {
      JoinAvoids(parts[1..], sep, c);
    }
  }

  /** The model of `toLowerCase`: ASCII letters only (full Unicode case
      mapping is not part of this model). */
  function LowerChar(c: char): char
  {
    if 'A' <= c <= 'Z' then (c as int + 32) as char else c
  }

  function Lower(s: string): (r: string)
    ensures |r| == |s|
    ensures forall k :: 0 <= k < |s| ==> r[k] == LowerChar(s[k])
  {
    if s == [] then [] else [LowerChar(s[0])] + Lower(s[1..])
  }

  /** `haystack.includes(needle)` */
  predicate Contains(haystack: string, needle: string)
    decreases |haystack|
  {
    needle <= haystack || (haystack != [] && Contains(haystack[1..], needle))
  }

  lemma {:induction false} ContainsEmpty(haystack: string)
    ensures Contains(haystack, "")
  {
  }

  /** `s.endsWith(suffix)` */
  predicate EndsWith(s: string, suffix: string)
  {
    |suffix| <= |s| && s[|s| - |suffix|..] == suffix
  }

  /** `parts.join(sep)` */
  function Join(parts: seq<string>, sep: string): string
  {
    if |parts| == 0 then ""
    else if |parts| == 1 then parts[0]
    else parts[0] + sep + Join(parts[1..], sep)
  }

  /** `s.split(sep)` for a one-character separator: always at least one part,
      and `"".split(sep)` is `[""]`. */
  function Split(s: string, sep: char): (r: seq<string>)
    ensures |r| >= 1
  {
    if s == [] then [""]
    else if s[0] == sep then [""] + Split(s[1..], sep)
    else var rest := Split(s[1..], sep); [[s[0]] + rest[0]] + rest[1..]
  }

  /** Splitting a string that starts with a separator-free piece glues that
      piece to the first part. */
  lemma {:induction false} SplitPrefix(a: string, rest: string, sep: char)
    requires sep !in a
    ensures Split(a + rest, sep) == [a + Split(rest, sep)[0]] + Split(rest, sep)[1..]
  {
    if a != [] {
      assert (a + rest)[0] == a[0];
      assert (a + rest)[1..] == a[1..] + rest;
      SplitPrefix(a[1..], rest, sep);
      assert [a[0]] + (a[1..] + Split(rest, sep)[0]) == a + Split(rest, sep)[0];
    } else {
      assert a + rest == rest;
      assert a + Split(rest, sep)[0] == Split(rest, sep)[0];
      assert Split(rest, sep) == [Split(rest, sep)[0]] + Split(rest, sep)[1..];
    }
  }

  /** Round trip of `split` after `join` when no part holds the separator. */
  lemma {:induction false} SplitJoin(parts: seq<string>, sep: char)
    requires |parts| >= 1
    requires forall k :: 0 <= k < |parts| ==> sep !in parts[k]
    ensures Split(Join(parts, [sep]), sep) == parts
  {
    if |parts| == 1 {
      SplitPrefix(parts[0], "", sep);
      assert parts[0] + "" == parts[0];
    } else {
      var tail := Join(parts[1..], [sep]);
      assert Join(parts, [sep]) == parts[0] + ([sep] + tail);
      SplitPrefix(parts[0], [sep] + tail, sep);
      assert ([sep] + tail)[1..] == tail;
      SplitJoin(parts[1..], sep);
      assert parts[0] + "" == parts[0];
    }
  }

  // ---- decimal digit strings ----

  predicate IsDigit(c: char)
  {
    '0' <= c <= '9'
  }

  predicate AllDigits(s: string)
  {
    forall k :: 0 <= k < |s| ==> IsDigit(s[k])
  }

  function DigitChar(d: nat): char
    requires d < 10
  {
    (48 + d) as char
  }

  /** Value of a digit string, most significant digit first. */
  function DigitsValue(s: string): nat
    requires AllDigits(s)
  {
    if s == [] then 0 else 10 * DigitsValue(s[..|s| - 1]) + (s[|s| - 1] as int - 48)
  }

  /** The decimal form of a natural number, as `String(n)` prints it. */
  function NatToString(n: nat): (r: string)
    ensures r != [] && AllDigits(r)
    ensures r[0] == '0' ==> n == 0 && r == "0"
  {
    if n < 10 then [DigitChar(n)] else NatToString(n / 10) + [DigitChar(n % 10)]
  }

  lemma {:induction false} DigitsOfNatToString(n: nat)
    ensures DigitsValue(NatToString(n)) == n
  {
    var r := NatToString(n);
    if n >= 10 {
      DigitsOfNatToString(n / 10);
      assert r[..|r| - 1] == NatToString(n / 10);
    }
  }

  /** `String(i)` for an integer. */
  function IntToString(i: int): (r: string)
    ensures r != []
  {
    if i < 0 then "-" + NatToString(-i) else NatToString(i)
  }
}
